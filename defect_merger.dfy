/**
 * The historical defect merger: each finding (alarm) of a run is matched
 * against the branch's defects loaded from earlier runs, first fit, then
 * against the defects created earlier in the same pass; a match updates the
 * defect, no match creates a NEW defect, and the loaded defects that no
 * finding matched become FIXED.
 *
 * The character diff of a file between an earlier run and this one comes
 * from a worker process; here it is the parameter `diffOf`, given the file's
 * path and the source root of the earlier run, and None when the worker fails.
 */
module DefectMerger {
  import opened JsStrings
  import opened DefectCode
  import opened DefectLocation

  datatype DefectStatus = New | Triaged | Dismissed | Fixed

  /** A finding of this run as the merger receives it. */
  datatype Alarm = Alarm(
    name: Option<string>, impact: string, message: string, fsPath: string, path: string, location: string,
    codeFragment: Option<string>, codeFragmentLocation: Option<SnippetLocation>, alarmId: int)

  /**
   * A defect of the branch. `alarmIds` is None when it is not an array;
   * `lastDetectedAnalysisFsPath` is None for a defect created in this pass,
   * or for a loaded one whose earlier run has no known root.
   */
  datatype Defect = Defect(
    ownerBid: string, name: Option<string>, impact: string, message: string, fsPath: string, path: string,
    location: string, codeFragment: Option<string>, codeFragmentLocation: Option<SnippetLocation>,
    firstDetectedAnalysisId: int, lastDetectedAnalysisId: int, lastDetectedAnalysisFsPath: Option<string>,
    status: DefectStatus, eliminatedAnalysisId: Option<int>, alarmIds: Option<seq<int>>)

  /** The run being merged. */
  datatype Analysis = Analysis(aid: int, ownerBid: string)

  type DiffSource = (string, string) -> Option<seq<DiffRun>>

  // ---------------------------------------------------------------------------
  // makeCode

  /**
   * makeCode: the text of the span, from the tail of its first line through
   * its middle lines to the head of its last line, with no line breaks; None
   * where the source throws because a line of the span is not in `codes`.
   */
  function MakeCode(codes: seq<string>, loc: SnippetLocation): (r: Option<string>)
    ensures loc.startLine > loc.endLine ==> r == Some("")
    ensures loc.startLine <= loc.endLine ==>
              (r.Some? <==> 1 <= loc.startLine && loc.endLine <= |codes|)
    ensures r.Some? && loc.startLine == loc.endLine ==>
              r.value == Substring(codes[loc.startLine - 1], loc.startColumn - 1, loc.endColumn - 1)
    ensures r.Some? && loc.startLine < loc.endLine ==>
              r.value == SubstringFrom(codes[loc.startLine - 1], loc.startColumn - 1)
                         + Concat(codes[loc.startLine..loc.endLine - 1])
                         + Substring(codes[loc.endLine - 1], 0, loc.endColumn - 1)
  {
    if loc.startLine > loc.endLine then Some("")
    else if !(1 <= loc.startLine && loc.endLine <= |codes|) then None
    else Some(CodeUpTo(codes, loc, loc.endLine))
  }

  /** The code accumulated once the lines startLine - 1 .. i - 1 are done. */
  function CodeUpTo(codes: seq<string>, loc: SnippetLocation, i: int): string
    requires 1 <= loc.startLine <= i <= loc.endLine && i <= |codes|
  {
    var first := loc.startLine - 1;
    if first == loc.endLine - 1 then Substring(codes[first], loc.startColumn - 1, loc.endColumn - 1)
    else if i < loc.endLine then SubstringFrom(codes[first], loc.startColumn - 1) + Concat(codes[first + 1..i])
    else SubstringFrom(codes[first], loc.startColumn - 1) + Concat(codes[first + 1..i - 1]) + Substring(codes[i - 1], 0, loc.endColumn - 1)
  }

  lemma CodeUpToFirst(codes: seq<string>, loc: SnippetLocation)
    requires 1 <= loc.startLine <= loc.endLine && loc.startLine <= |codes|
    ensures CodeUpTo(codes, loc, loc.startLine)
            == if loc.startLine == loc.endLine then Substring(codes[loc.startLine - 1], loc.startColumn - 1, loc.endColumn - 1)
               else "" + SubstringFrom(codes[loc.startLine - 1], loc.startColumn - 1)
  {
    assert codes[loc.startLine..loc.startLine] == [];
  }

  lemma CodeUpToNext(codes: seq<string>, loc: SnippetLocation, i: int)
    requires 1 <= loc.startLine <= i < loc.endLine && i < |codes|
    ensures CodeUpTo(codes, loc, i + 1)
            == CodeUpTo(codes, loc, i) + if i == loc.endLine - 1 then Substring(codes[i], 0, loc.endColumn - 1) else codes[i]
  {
    if i < loc.endLine - 1 {
      var parts := codes[loc.startLine..i + 1];
      ConcatStep(parts);
      assert parts[..|parts| - 1] == codes[loc.startLine..i];
    }
  }

  /** makeCode, line by line. */
  method MakeCodeLoop(codes: seq<string>, loc: SnippetLocation) returns (r: Option<string>)
    ensures r == MakeCode(codes, loc)
  {
    var startLine, startColumn, endLine, endColumn := loc.startLine, loc.startColumn, loc.endLine, loc.endColumn;
    var newCode := "";
    var i := startLine - 1;
    while i < endLine
      invariant startLine > endLine ==> i == startLine - 1
      invariant i == startLine - 1 ==> newCode == ""
      invariant startLine <= endLine ==> startLine - 1 <= i <= endLine
      invariant startLine <= endLine && i > startLine - 1 ==>
                  1 <= startLine && i <= |codes| && newCode == CodeUpTo(codes, loc, i)
    {
      if i < 0 || i >= |codes| {
        // codes[i] is undefined: its `substring` throws now, or on the last line, which is undefined too
        return None;
      }
      newCode := AddLine(codes, loc, i, newCode);
      i := i + 1;
    }
    return Some(newCode);
  }

  /** One turn of makeCode's loop: the part of line i that the span covers is appended. */
  method AddLine(codes: seq<string>, loc: SnippetLocation, i: int, newCode: string) returns (code: string)
    requires 1 <= loc.startLine <= i + 1 <= loc.endLine && i < |codes|
    requires newCode == if i == loc.startLine - 1 then "" else CodeUpTo(codes, loc, i)
    ensures code == CodeUpTo(codes, loc, i + 1)
  {
    var startLine, startColumn, endLine, endColumn := loc.startLine, loc.startColumn, loc.endLine, loc.endColumn;
    if i == startLine - 1 && i == endLine - 1 {
      CodeUpToFirst(codes, loc);
      code := newCode + Substring(codes[i], startColumn - 1, endColumn - 1);
    } else if i == startLine - 1 {
      CodeUpToFirst(codes, loc);
      code := newCode + SubstringFrom(codes[i], startColumn - 1);
    } else if i == endLine - 1 {
      CodeUpToNext(codes, loc, i);
      code := newCode + Substring(codes[i], 0, endColumn - 1);
    } else {
      CodeUpToNext(codes, loc, i);
      code := newCode + codes[i];
    }
  }

  // ---------------------------------------------------------------------------
  // isSameDefect

  /** The cheap first test: same rule, impact, message and file. */
  predicate SameFields(alarm: Alarm, defect: Defect)
  {
    alarm.name == defect.name && alarm.impact == defect.impact
    && alarm.message == defect.message && alarm.fsPath == defect.fsPath
  }

  /**
   * Where the alarm's span was when the defect was last seen: the span itself
   * within the same run, the translated span otherwise (None where the
   * source gets null).
   */
  function LastLocation(alarm: Alarm, defect: Defect, aid: int, diffOf: DiffSource): Option<string>
  {
    if aid == defect.lastDetectedAnalysisId then Some(alarm.location)
    else if defect.lastDetectedAnalysisFsPath.None? then None
    else
      match diffOf(alarm.fsPath, defect.lastDetectedAnalysisFsPath.value)
      case None => None
      case Some(diff) => LastDetectedLocation(alarm.location, diff)
  }

  /** The code re-sliced from a fragment: none for a missing or empty fragment. */
  datatype Code = NoCode | Code(text: string) | CodeThrew

  function CodeOf(fragment: Option<string>, location: Option<SnippetLocation>): (r: Code)
    ensures fragment.None? || fragment == Some("") ==> r == NoCode
    ensures r.Code? ==> fragment.Some? && location.Some? && MakeCode(Split(fragment.value, '\n'), location.value) == Some(r.text)
  {
    if fragment.None? || fragment.value == "" then NoCode
    else if location.None? then CodeThrew
    else
      match MakeCode(Split(fragment.value, '\n'), location.value)
      case None => CodeThrew
      case Some(c) => Code(c)
  }

  /** The codes agree: both absent or both the same text; a throw makes them disagree. */
  predicate CodesMatch(alarm: Alarm, defect: Defect)
  {
    var t := CodeOf(alarm.codeFragment, alarm.codeFragmentLocation);
    var p := CodeOf(defect.codeFragment, defect.codeFragmentLocation);
    !t.CodeThrew? && !p.CodeThrew? && t == p
  }

  /**
   * isSameDefect, with the diff worker given as `diffOf`: the fields agree,
   * the span is the defect's (directly or through the diff), and the codes
   * agree (SameDefectTests).
   */
  predicate IsSameDefect(alarm: Alarm, defect: Defect, aid: int, diffOf: DiffSource)
  {
    SameFields(alarm, defect)
    && LastLocation(alarm, defect, aid, diffOf) == Some(defect.location)
    && CodesMatch(alarm, defect)
  }

  /**
   * The three tests in the source's order: the fields, then the span (direct
   * within the same run, translated across runs), then the re-sliced code,
   * each way round in either case; a finding with code never matches a
   * defect without, nor the reverse.
   */
  lemma SameDefectTests(alarm: Alarm, defect: Defect, aid: int, diffOf: DiffSource)
    ensures !SameFields(alarm, defect) ==> !IsSameDefect(alarm, defect, aid, diffOf)
    ensures aid == defect.lastDetectedAnalysisId ==>
              (IsSameDefect(alarm, defect, aid, diffOf) <==>
                 SameFields(alarm, defect) && alarm.location == defect.location && CodesMatch(alarm, defect))
    ensures IsSameDefect(alarm, defect, aid, diffOf) && aid != defect.lastDetectedAnalysisId ==>
              exists diff :: diffOf(alarm.fsPath, defect.lastDetectedAnalysisFsPath.value) == Some(diff)
                             && LastDetectedLocation(alarm.location, diff) == Some(defect.location)
    ensures aid != defect.lastDetectedAnalysisId ==>
              (IsSameDefect(alarm, defect, aid, diffOf) <==>
                 SameFields(alarm, defect) && defect.lastDetectedAnalysisFsPath.Some?
                 && diffOf(alarm.fsPath, defect.lastDetectedAnalysisFsPath.value).Some?
                 && LastDetectedLocation(alarm.location, diffOf(alarm.fsPath, defect.lastDetectedAnalysisFsPath.value).value)
                    == Some(defect.location)
                 && CodesMatch(alarm, defect))
    ensures IsSameDefect(alarm, defect, aid, diffOf) ==> CodesMatch(alarm, defect)
    ensures IsSameDefect(alarm, defect, aid, diffOf) ==>
              (alarm.codeFragment.None? || alarm.codeFragment == Some("") <==>
                 defect.codeFragment.None? || defect.codeFragment == Some(""))
  {
    if IsSameDefect(alarm, defect, aid, diffOf) && aid != defect.lastDetectedAnalysisId {
      var diff := diffOf(alarm.fsPath, defect.lastDetectedAnalysisFsPath.value).value;
      assert LastDetectedLocation(alarm.location, diff) == Some(defect.location);
    }
  }

  // ---------------------------------------------------------------------------
  // updating and creating defects

  /** updateDefectToFixed. */
  function UpdateDefectToFixed(defect: Defect, aid: int): (r: Defect)
    ensures r.status == Fixed && r.eliminatedAnalysisId == Some(aid)
    ensures r.(status := defect.status, eliminatedAnalysisId := defect.eliminatedAnalysisId) == defect
  {
    defect.(status := Fixed, eliminatedAnalysisId := Some(aid))
  }

  function AppendAlarmId(ids: Option<seq<int>>, alarmId: int): seq<int>
  {
    if ids.Some? then ids.value + [alarmId] else [alarmId]
  }

  /** updateDefectWithAlarm: the span, the fragment and the last run change, the alarm id is appended, nothing else changes. */
  function UpdateDefectWithAlarm(defect: Defect, alarm: Alarm, aid: int): (r: Defect)
    ensures r.location == alarm.location && r.codeFragment == alarm.codeFragment
    ensures r.codeFragmentLocation == alarm.codeFragmentLocation && r.lastDetectedAnalysisId == aid
    ensures r.alarmIds.Some? && |r.alarmIds.value| >= 1 && r.alarmIds.value[|r.alarmIds.value| - 1] == alarm.alarmId
    ensures defect.alarmIds.Some? ==> r.alarmIds.value[..|r.alarmIds.value| - 1] == defect.alarmIds.value
    ensures r.(location := defect.location, codeFragment := defect.codeFragment,
               codeFragmentLocation := defect.codeFragmentLocation,
               lastDetectedAnalysisId := defect.lastDetectedAnalysisId, alarmIds := defect.alarmIds) == defect
  {
    defect.(location := alarm.location, codeFragment := alarm.codeFragment,
            codeFragmentLocation := alarm.codeFragmentLocation, lastDetectedAnalysisId := aid,
            alarmIds := Some(AppendAlarmId(defect.alarmIds, alarm.alarmId)))
  }

  /** createNewDefectFromAlarm. */
  function CreateNewDefectFromAlarm(alarm: Alarm, ownerBid: string, aid: int): (r: Defect)
    ensures r.status == New && r.firstDetectedAnalysisId == aid && r.lastDetectedAnalysisId == aid
    ensures r.alarmIds == Some([alarm.alarmId]) && r.eliminatedAnalysisId.None? && r.ownerBid == ownerBid
    ensures SameFields(alarm, r) && r.location == alarm.location && r.path == alarm.path
    ensures r.codeFragment == alarm.codeFragment && r.codeFragmentLocation == alarm.codeFragmentLocation
  {
    Defect(ownerBid, alarm.name, alarm.impact, alarm.message, alarm.fsPath, alarm.path, alarm.location,
           alarm.codeFragment, alarm.codeFragmentLocation, aid, aid, None, New, None, Some([alarm.alarmId]))
  }

  /** An alarm whose fragment can be re-sliced matches, in the same run, the defect created from it. */
  lemma CreatedDefectMatches(alarm: Alarm, ownerBid: string, aid: int, diffOf: DiffSource)
    requires !CodeOf(alarm.codeFragment, alarm.codeFragmentLocation).CodeThrew?
    ensures IsSameDefect(alarm, CreateNewDefectFromAlarm(alarm, ownerBid, aid), aid, diffOf)
  {
  }

  /** A defect claimed by an alarm stays claimable: the same alarm matches it again in the same run. */
  lemma UpdatedDefectMatches(alarm: Alarm, defect: Defect, aid: int, diffOf: DiffSource)
    requires SameFields(alarm, defect) && !CodeOf(alarm.codeFragment, alarm.codeFragmentLocation).CodeThrew?
    ensures IsSameDefect(alarm, UpdateDefectWithAlarm(defect, alarm, aid), aid, diffOf)
  {
  }

  // ---------------------------------------------------------------------------
  // mergeAlarmWithMergedDefects

  /** The first defect the alarm matches, -1 when there is none. */
  function FirstSame(alarm: Alarm, ds: seq<Defect>, aid: int, diffOf: DiffSource): (r: int)
    ensures -1 <= r < |ds|
    ensures r == -1 <==> forall k :: 0 <= k < |ds| ==> !IsSameDefect(alarm, ds[k], aid, diffOf)
    ensures r >= 0 ==> IsSameDefect(alarm, ds[r], aid, diffOf)
                       && forall k :: 0 <= k < r ==> !IsSameDefect(alarm, ds[k], aid, diffOf)
    decreases |ds|
  {
    if ds == [] then -1
    else if IsSameDefect(alarm, ds[0], aid, diffOf) then 0
    else
      var tail := ds[1..];
      var r := FirstSame(alarm, tail, aid, diffOf);
      assert forall k :: 1 <= k < |ds| ==> ds[k] == tail[k - 1];
      if r == -1 then -1
      else
        assert ds[r + 1] == tail[r];
        r + 1
  }

  /** The loaded and the created defects after one alarm is merged. */
  function MergedAlarm(alarm: Alarm, prev: seq<Defect>, news: seq<Defect>, analysis: Analysis, diffOf: DiffSource)
    : (r: (seq<Defect>, seq<Defect>))
    ensures |r.0| == |prev| && |news| <= |r.1| <= |news| + 1
  {
    var i := FirstSame(alarm, prev, analysis.aid, diffOf);
    if i >= 0 then (prev[i := UpdateDefectWithAlarm(prev[i], alarm, analysis.aid)], news)
    else
      var j := FirstSame(alarm, news, analysis.aid, diffOf);
      if j >= 0 then (prev, news[j := UpdateDefectWithAlarm(news[j], alarm, analysis.aid)])
      else (prev, news + [CreateNewDefectFromAlarm(alarm, analysis.ownerBid, analysis.aid)])
  }

  /** `r` is `ds` with its first defect the alarm matches updated by the alarm, and every other defect as it was. */
  predicate UpdatesFirst(alarm: Alarm, ds: seq<Defect>, r: seq<Defect>, aid: int, diffOf: DiffSource)
  {
    var h := FirstSame(alarm, ds, aid, diffOf);
    0 <= h && |r| == |ds|
    && r[h] == UpdateDefectWithAlarm(ds[h], alarm, aid)
    && forall k :: 0 <= k < |ds| && k != h ==> r[k] == ds[k]
  }

  /**
   * First fit: when a loaded defect matches, the first one is updated and
   * the created ones stay; otherwise the loaded ones stay and, when a created
   * defect matches, the first one is updated; when none matches, one NEW
   * defect is appended.
   */
  lemma MergedAlarmFirstFit(alarm: Alarm, prev: seq<Defect>, news: seq<Defect>, analysis: Analysis, diffOf: DiffSource)
    ensures var r := MergedAlarm(alarm, prev, news, analysis, diffOf);
      var aid := analysis.aid;
      var inPrev := exists k :: 0 <= k < |prev| && IsSameDefect(alarm, prev[k], aid, diffOf);
      var inNews := exists k :: 0 <= k < |news| && IsSameDefect(alarm, news[k], aid, diffOf);
      (inPrev ==> UpdatesFirst(alarm, prev, r.0, aid, diffOf) && r.1 == news)
      && (!inPrev ==> r.0 == prev)
      && (!inPrev && inNews ==> UpdatesFirst(alarm, news, r.1, aid, diffOf))
      && (!inPrev && !inNews ==> r.1 == news + [CreateNewDefectFromAlarm(alarm, analysis.ownerBid, aid)])
      && (r.1 == news + [CreateNewDefectFromAlarm(alarm, analysis.ownerBid, aid)] <==> !inPrev && !inNews)
  {
    var aid := analysis.aid;
    var r := MergedAlarm(alarm, prev, news, analysis, diffOf);
    var i := FirstSame(alarm, prev, aid, diffOf);
    if i < 0 {
      var j := FirstSame(alarm, news, aid, diffOf);
      if j >= 0 {
        assert |r.1| == |news|;
        assert r.1 != news + [CreateNewDefectFromAlarm(alarm, analysis.ownerBid, aid)];
      }
    } else {
      assert |r.1| == |news|;
      assert r.1 != news + [CreateNewDefectFromAlarm(alarm, analysis.ownerBid, aid)];
    }
  }

  /**
   * One of mergeAlarmWithMergedDefects' two passes: every defect is visited,
   * the first one the alarm matches is updated and the later ones are not
   * compared with it.
   */
  method ClaimFirst(alarm: Alarm, defects: seq<Defect>, aid: int, diffOf: DiffSource)
    returns (isHit: bool, ds: seq<Defect>)
    ensures var h := FirstSame(alarm, defects, aid, diffOf);
      isHit == (h >= 0) && ds == if h >= 0 then defects[h := UpdateDefectWithAlarm(defects[h], alarm, aid)] else defects
  {
    isHit := false;
    ds := defects;
    ghost var hit := FirstSame(alarm, defects, aid, diffOf);
    var i := 0;
    while i < |ds|
      invariant 0 <= i <= |ds| == |defects|
      invariant !isHit ==> ds == defects && forall k :: 0 <= k < i ==> !IsSameDefect(alarm, defects[k], aid, diffOf)
      invariant isHit ==> 0 <= hit < i && ds == defects[hit := UpdateDefectWithAlarm(defects[hit], alarm, aid)]
    {
      if !isHit {
        var same := IsSameDefect(alarm, ds[i], aid, diffOf);
        if same {
          assert hit == i;
          isHit := true;
          ds := ds[i := UpdateDefectWithAlarm(ds[i], alarm, aid)];
        }
      }
      i := i + 1;
    }
  }

  /**
   * mergeAlarmWithMergedDefects: a pass over the loaded defects, then over the
   * created ones, that stops testing at the first hit; on no hit a NEW defect
   * is pushed.
   */
  method MergeAlarmWithMergedDefects(alarm: Alarm, prevDefects: seq<Defect>, newDefects: seq<Defect>,
                                     analysis: Analysis, diffOf: DiffSource)
    returns (prev: seq<Defect>, news: seq<Defect>)
    ensures (prev, news) == MergedAlarm(alarm, prevDefects, newDefects, analysis, diffOf)
  {
    var aid := analysis.aid;
    var bid := analysis.ownerBid;
    var isHit;
    news := newDefects;
    isHit, prev := ClaimFirst(alarm, prevDefects, aid, diffOf);
    if !isHit {
      isHit, news := ClaimFirst(alarm, newDefects, aid, diffOf);
    }
    if !isHit {
      news := news + [CreateNewDefectFromAlarm(alarm, bid, aid)];
    }
  }

  // ---------------------------------------------------------------------------
  // mergeAlarms

  /** The defects after the alarms are merged one after the other. */
  function MergedAlarms(alarms: seq<Alarm>, prev: seq<Defect>, news: seq<Defect>, analysis: Analysis, diffOf: DiffSource)
    : (r: (seq<Defect>, seq<Defect>))
    ensures |r.0| == |prev| && |news| <= |r.1| <= |news| + |alarms|
    decreases |alarms|
  {
    if alarms == [] then (prev, news)
    else
      var m := MergedAlarm(alarms[0], prev, news, analysis, diffOf);
      MergedAlarms(alarms[1..], m.0, m.1, analysis, diffOf)
  }

  /** The loaded defects that no alarm of this run matched become FIXED, in place. */
  function FixUnseen(prev: seq<Defect>, aid: int): (r: seq<Defect>)
    ensures |r| == |prev|
    ensures forall k :: 0 <= k < |r| ==>
              r[k] == (if prev[k].lastDetectedAnalysisId == aid then prev[k] else UpdateDefectToFixed(prev[k], aid))
  {
    seq(|prev|, k requires 0 <= k < |prev| => if prev[k].lastDetectedAnalysisId == aid then prev[k] else UpdateDefectToFixed(prev[k], aid))
  }

  /** What mergeAlarms returns: the loaded defects, hit or FIXED, then the created ones. */
  function MergeResult(analysis: Analysis, alarms: seq<Alarm>, prevDefects: seq<Defect>, diffOf: DiffSource): seq<Defect>
  {
    var m := MergedAlarms(alarms, prevDefects, [], analysis, diffOf);
    FixUnseen(m.0, analysis.aid) + m.1
  }

  /** mergeAlarms, with the loaded defects given as `prevDefects`. */
  method MergeAlarms(analysis: Analysis, newAlarms: seq<Alarm>, prevDefects: seq<Defect>, diffOf: DiffSource)
    returns (merged: seq<Defect>)
    ensures merged == MergeResult(analysis, newAlarms, prevDefects, diffOf)
  {
    var prev := prevDefects;
    var newDefects: seq<Defect> := [];
    var i := 0;
    while i < |newAlarms|
      invariant 0 <= i <= |newAlarms|
      invariant MergedAlarms(newAlarms, prevDefects, [], analysis, diffOf)
                == MergedAlarms(newAlarms[i..], prev, newDefects, analysis, diffOf)
    {
      assert newAlarms[i..][1..] == newAlarms[i + 1..];
      prev, newDefects := MergeAlarmWithMergedDefects(newAlarms[i], prev, newDefects, analysis, diffOf);
      i := i + 1;
    }
    assert newAlarms[i..] == [];
    var hitDefects := Filter(prev, analysis.aid, true);
    var nohitDefects := Filter(prev, analysis.aid, false);
    assert |hitDefects| + |nohitDefects| == |prev| by {
      FilterSizes(prev, analysis.aid);
    }
    prev := FixUnseen(prev, analysis.aid);
    merged := prev + newDefects;
  }

  /** The defects whose last run is (`hit`) or is not this one. */
  function Filter(ds: seq<Defect>, aid: int, hit: bool): (r: seq<Defect>)
    ensures forall k :: 0 <= k < |r| ==> (r[k].lastDetectedAnalysisId == aid) == hit
    ensures forall d :: multiset(r)[d] == if (d.lastDetectedAnalysisId == aid) == hit then multiset(ds)[d] else 0
  {
    if ds == [] then []
    else
      assert ds == [ds[0]] + ds[1..];
      if (ds[0].lastDetectedAnalysisId == aid) == hit then [ds[0]] + Filter(ds[1..], aid, hit)
      else Filter(ds[1..], aid, hit)
  }

  /** The two filters split the loaded defects: the source's "Wrong update" error cannot happen. */
  lemma {:induction false} FilterSizes(ds: seq<Defect>, aid: int)
    ensures |Filter(ds, aid, true)| + |Filter(ds, aid, false)| == |ds|
  {
    if ds != [] {
      FilterSizes(ds[1..], aid);
    }
  }

  // ---------------------------------------------------------------------------
  // properties of a merge

  /** The identity of a defect: what the merge never changes. */
  predicate SameIdentity(a: Defect, b: Defect)
  {
    a.ownerBid == b.ownerBid && a.name == b.name && a.impact == b.impact && a.message == b.message
    && a.fsPath == b.fsPath && a.path == b.path && a.firstDetectedAnalysisId == b.firstDetectedAnalysisId
    && a.lastDetectedAnalysisFsPath == b.lastDetectedAnalysisFsPath
  }

  /** After the pass, each loaded defect is itself, or itself updated by an alarm; the created ones are NEW defects of this run. */
  predicate PassInvariant(prev0: seq<Defect>, prev: seq<Defect>, news: seq<Defect>, analysis: Analysis)
  {
    |prev| == |prev0|
    && (forall k :: 0 <= k < |prev| ==>
          SameIdentity(prev[k], prev0[k]) && prev[k].status == prev0[k].status
          && (prev[k] == prev0[k] || prev[k].lastDetectedAnalysisId == analysis.aid))
    && (forall k :: 0 <= k < |news| ==>
          news[k].status == New && news[k].firstDetectedAnalysisId == analysis.aid
          && news[k].lastDetectedAnalysisId == analysis.aid && news[k].ownerBid == analysis.ownerBid)
  }

  lemma MergedAlarmKeeps(alarm: Alarm, prev0: seq<Defect>, prev: seq<Defect>, news: seq<Defect>,
                         analysis: Analysis, diffOf: DiffSource)
    requires PassInvariant(prev0, prev, news, analysis)
    ensures var m := MergedAlarm(alarm, prev, news, analysis, diffOf);
      PassInvariant(prev0, m.0, m.1, analysis)
  {
    var m := MergedAlarm(alarm, prev, news, analysis, diffOf);
    var i := FirstSame(alarm, prev, analysis.aid, diffOf);
    if i < 0 {
      var j := FirstSame(alarm, news, analysis.aid, diffOf);
      if j < 0 {
        assert forall k :: 0 <= k < |news| ==> m.1[k] == news[k];
      }
    }
  }

  lemma {:induction false} MergedAlarmsKeep(alarms: seq<Alarm>, prev0: seq<Defect>, prev: seq<Defect>, news: seq<Defect>,
                                            analysis: Analysis, diffOf: DiffSource)
    requires PassInvariant(prev0, prev, news, analysis)
    ensures var m := MergedAlarms(alarms, prev, news, analysis, diffOf);
      PassInvariant(prev0, m.0, m.1, analysis)
    decreases |alarms|
  {
    if alarms != [] {
      var m := MergedAlarm(alarms[0], prev, news, analysis, diffOf);
      MergedAlarmKeeps(alarms[0], prev0, prev, news, analysis, diffOf);
      MergedAlarmsKeep(alarms[1..], prev0, m.0, m.1, analysis, diffOf);
    }
  }

  /**
   * After mergeAlarms the result is the loaded defects, in order and with
   * their identity, then the created ones; each loaded defect was seen in
   * this run or is FIXED by it; each created one is a NEW defect of this
   * run; and there are no more created defects than alarms.
   */
  lemma MergeClassifiesAll(analysis: Analysis, alarms: seq<Alarm>, prevDefects: seq<Defect>, diffOf: DiffSource)
    ensures var r := MergeResult(analysis, alarms, prevDefects, diffOf);
      var aid := analysis.aid;
      |prevDefects| <= |r| <= |prevDefects| + |alarms|
      && (forall k :: 0 <= k < |prevDefects| ==>
            SameIdentity(r[k], prevDefects[k])
            && (r[k].lastDetectedAnalysisId == aid || (r[k].status == Fixed && r[k].eliminatedAnalysisId == Some(aid))))
      && (forall k :: |prevDefects| <= k < |r| ==>
            r[k].status == New && r[k].firstDetectedAnalysisId == aid && r[k].lastDetectedAnalysisId == aid)
  {
    var m := MergedAlarms(alarms, prevDefects, [], analysis, diffOf);
    MergedAlarmsKeep(alarms, prevDefects, prevDefects, [], analysis, diffOf);
    ResultShape(prevDefects, m.0, m.1, analysis);
  }

  /** The FIXED marking keeps the identity of the loaded defects, and leaves none neither seen nor FIXED. */
  lemma ResultShape(prev0: seq<Defect>, prev: seq<Defect>, news: seq<Defect>, analysis: Analysis)
    requires PassInvariant(prev0, prev, news, analysis)
    ensures var r := FixUnseen(prev, analysis.aid) + news;
      var aid := analysis.aid;
      (forall k :: 0 <= k < |prev0| ==>
            SameIdentity(r[k], prev0[k])
            && (r[k].lastDetectedAnalysisId == aid || (r[k].status == Fixed && r[k].eliminatedAnalysisId == Some(aid))))
      && (forall k :: |prev0| <= k < |r| ==>
            r[k].status == New && r[k].firstDetectedAnalysisId == aid && r[k].lastDetectedAnalysisId == aid)
  {
    var fixed := FixUnseen(prev, analysis.aid);
    var r := fixed + news;
    assert forall k :: 0 <= k < |prev0| ==> r[k] == fixed[k];
    assert forall k :: |prev0| <= k < |r| ==> r[k] == news[k - |prev0|];
  }

  /** With no alarm, every loaded defect last seen in another run becomes FIXED by this one, and nothing is created. */
  lemma NoAlarmsFixAll(analysis: Analysis, prevDefects: seq<Defect>, diffOf: DiffSource)
    ensures MergeResult(analysis, [], prevDefects, diffOf) == FixUnseen(prevDefects, analysis.aid)
  {
    assert FixUnseen(prevDefects, analysis.aid) + [] == FixUnseen(prevDefects, analysis.aid);
  }

  /**
   * A defect from an earlier run, found again with its span untouched by the
   * diff, is updated rather than duplicated or FIXED.
   */
  lemma UnchangedDefectUpdated(analysis: Analysis, alarm: Alarm, defect: Defect, l: Location, diff: seq<DiffRun>,
                               diffOf: DiffSource)
    requires defect.lastDetectedAnalysisId != analysis.aid && defect.lastDetectedAnalysisFsPath.Some?
    requires diffOf(alarm.fsPath, defect.lastDetectedAnalysisFsPath.value) == Some(diff)
    requires NonNegative(l) && AllKept(diff) && |diff| >= 1
    requires EndsBy(l, KeptEnd(StartCursor(l), diff).0, KeptEnd(StartCursor(l), diff).1)
    requires alarm.location == StringifyLocation(l) && defect.location == alarm.location
    requires SameFields(alarm, defect) && CodesMatch(alarm, defect)
    ensures MergeResult(analysis, [alarm], [defect], diffOf) == [UpdateDefectWithAlarm(defect, alarm, analysis.aid)]
  {
    UnchangedSpanLocated(analysis.aid, alarm, defect, l, diff, diffOf);
    MatchedDefectUpdated(analysis, alarm, defect, diffOf);
  }

  lemma UnchangedSpanLocated(aid: int, alarm: Alarm, defect: Defect, l: Location, diff: seq<DiffRun>, diffOf: DiffSource)
    requires defect.lastDetectedAnalysisId != aid && defect.lastDetectedAnalysisFsPath.Some?
    requires diffOf(alarm.fsPath, defect.lastDetectedAnalysisFsPath.value) == Some(diff)
    requires NonNegative(l) && AllKept(diff) && |diff| >= 1
    requires EndsBy(l, KeptEnd(StartCursor(l), diff).0, KeptEnd(StartCursor(l), diff).1)
    requires alarm.location == StringifyLocation(l) && defect.location == alarm.location
    ensures LastLocation(alarm, defect, aid, diffOf) == Some(defect.location)
  {
    KeptDiffKeepsLocation(l, diff);
  }

  /** A single alarm matching the single loaded defect updates it and creates nothing. */
  lemma MatchedDefectUpdated(analysis: Analysis, alarm: Alarm, defect: Defect, diffOf: DiffSource)
    requires IsSameDefect(alarm, defect, analysis.aid, diffOf)
    ensures MergeResult(analysis, [alarm], [defect], diffOf) == [UpdateDefectWithAlarm(defect, alarm, analysis.aid)]
  {
    var u := UpdateDefectWithAlarm(defect, alarm, analysis.aid);
    var i := FirstSame(alarm, [defect], analysis.aid, diffOf);
    assert [defect][0] == defect;
    assert i == 0;
    var m := MergedAlarm(alarm, [defect], [], analysis, diffOf);
    assert m.0 == [defect][0 := u];
    assert [defect][0 := u] == [u];
    assert m.1 == [];
    assert [alarm][1..] == [];
    assert MergedAlarms([alarm], [defect], [], analysis, diffOf) == MergedAlarms([], m.0, m.1, analysis, diffOf);
  }
}
