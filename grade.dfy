/**
 * The grade of a run: the open defects (NEW or TRIAGED) are counted by
 * impact, each count is turned into a density per thousand lines of code,
 * and the densities are held against the thresholds of the three levels.
 */
module Grade {
  import opened JsStrings
  import opened EngineOutput
  import opened DefectMerger

  /** The grade label; NoGrade is the empty label given when there are no lines of code. */
  datatype Grade = NoGrade | Poor | Normal | Good

  /** A level of the grade table: the density thresholds for high or medium, and for low, impact. */
  datatype Level = Level(thresholdHighMedium: real, thresholdLow: real)

  const PoorLevel: Level := Level(1.0, 10.0)
  const NormalLevel: Level := Level(1.0, 10.0)
  const GoodLevel: Level := Level(1.0, 5.0)

  /** The impact names counted apart from each other; any other impact counts as "Others". */
  const High: string := "High"
  const Medium: string := "Medium"
  const Low: string := "Low"
  const Others: string := "Others"

  function ImpactKey(impact: string): (k: string)
    ensures k == High || k == Medium || k == Low || k == Others
    ensures impact in {High, Medium, Low} ==> k == impact
  {
    if impact == High then High
    else if impact == Medium then Medium
    else if impact == Low then Low
    else Others
  }

  /** How many defects count under `key`. */
  function CountImpact(defects: seq<Defect>, key: string): (n: nat)
    ensures n <= |defects|
  {
    if defects == [] then 0
    else CountImpact(defects[..|defects| - 1], key) + if ImpactKey(defects[|defects| - 1].impact) == key then 1 else 0
  }

  /** The four counts share out the defects: every defect is counted once. */
  lemma {:induction false} ImpactCountsCover(defects: seq<Defect>)
    ensures CountImpact(defects, High) + CountImpact(defects, Medium) + CountImpact(defects, Low)
            + CountImpact(defects, Others) == |defects|
  {
    if defects != [] {
      ImpactCountsCover(defects[..|defects| - 1]);
    }
  }

  /** Appending a defect adds one to its own count and leaves the others alone. */
  lemma CountImpactAppend(defects: seq<Defect>, d: Defect, key: string)
    ensures CountImpact(defects + [d], key) == CountImpact(defects, key) + if ImpactKey(d.impact) == key then 1 else 0
  {
    assert (defects + [d])[..|defects|] == defects;
  }

  /** Defects per thousand lines; no defect gives 0 whatever the lines. */
  function Density(count: nat, loc: int): (r: real)
    requires loc != 0
    ensures count == 0 ==> r == 0.0
    ensures r * (loc as real) == (count * 1000) as real
  {
    if count != 0 then (count as real / loc as real) * 1000.0 else 0.0
  }

  /** Over a positive number of lines, a density reaches a threshold exactly when the count, per thousand, does. */
  lemma DensityAtLeast(count: nat, loc: int, t: int)
    requires loc > 0
    ensures Density(count, loc) >= t as real <==> count * 1000 >= t * loc
  {
    var d := Density(count, loc);
    var l := loc as real;
    assert d * l == (count * 1000) as real;
    if d >= t as real {
      assert d * l >= (t as real) * l;
    } else {
      assert d * l < (t as real) * l;
    }
  }

  /** Over a negative number of lines no density is positive. */
  lemma DensityNegativeLoc(count: nat, loc: int)
    requires loc < 0
    ensures Density(count, loc) <= 0.0
  {
    var d := Density(count, loc);
    var l := loc as real;
    assert d * l == (count * 1000) as real >= 0.0;
  }

  /** gradeComputer.compute, with `loc` None where the source has NaN. */
  function Compute(defects: seq<Defect>, loc: Option<int>): (g: Grade)
    ensures g == NoGrade <==> loc.None? || loc.value == 0
  {
    if loc.None? || loc.value == 0 then NoGrade
    else
      var highDensity := Density(CountImpact(defects, High), loc.value);
      var mediumDensity := Density(CountImpact(defects, Medium), loc.value);
      var lowDensity := Density(CountImpact(defects, Low), loc.value);
      if highDensity >= PoorLevel.thresholdHighMedium || mediumDensity >= PoorLevel.thresholdHighMedium
         || lowDensity >= PoorLevel.thresholdLow then Poor
      else if lowDensity < GoodLevel.thresholdLow then Good
      else if lowDensity < NormalLevel.thresholdLow then Normal
      else NoGrade
  }

  /**
   * The grade in counts: over a positive number of lines it is POOR when
   * there is a high or medium defect per thousand lines or ten low ones,
   * otherwise GOOD below five low defects per thousand lines and NORMAL from
   * five; over a negative number of lines it is always GOOD.
   */
  lemma GradeByCounts(defects: seq<Defect>, loc: int)
    requires loc != 0
    ensures var high, medium, low := CountImpact(defects, High), CountImpact(defects, Medium), CountImpact(defects, Low);
      var g := Compute(defects, Some(loc));
      (loc > 0 ==>
         (g == Poor <==> high * 1000 >= loc || medium * 1000 >= loc || low * 1000 >= 10 * loc)
         && (g == Good <==> g != Poor && low * 1000 < 5 * loc)
         && (g == Normal <==> g != Poor && 5 * loc <= low * 1000))
      && (loc < 0 ==> g == Good)
  {
    var high, medium, low := CountImpact(defects, High), CountImpact(defects, Medium), CountImpact(defects, Low);
    if loc > 0 {
      DensityAtLeast(high, loc, 1);
      DensityAtLeast(medium, loc, 1);
      DensityAtLeast(low, loc, 10);
      DensityAtLeast(low, loc, 5);
    } else {
      DensityNegativeLoc(high, loc);
      DensityNegativeLoc(medium, loc);
      DensityNegativeLoc(low, loc);
    }
  }

  /** The rank of a grade, from worst to best. */
  function Rank(g: Grade): nat
  {
    match g
    case NoGrade => 0
    case Poor => 1
    case Normal => 2
    case Good => 3
  }

  /** Over a positive number of lines one more defect never makes the grade better. */
  lemma MoreDefectsNoBetter(defects: seq<Defect>, d: Defect, loc: int)
    requires loc > 0
    ensures Rank(Compute(defects + [d], Some(loc))) <= Rank(Compute(defects, Some(loc)))
  {
    CountImpactAppend(defects, d, High);
    CountImpactAppend(defects, d, Medium);
    CountImpactAppend(defects, d, Low);
    GradeByCounts(defects, loc);
    GradeByCounts(defects + [d], loc);
  }

  /** The defects getGrade counts: those NEW or TRIAGED, each as often as in `all`, in order. */
  function OpenDefects(all: seq<Defect>): (r: seq<Defect>)
    ensures forall k :: 0 <= k < |r| ==> IsOpen(r[k])
    ensures forall k :: 0 <= k < |all| && IsOpen(all[k]) ==> all[k] in r
    ensures |r| <= |all|
    ensures forall d :: multiset(r)[d] == if IsOpen(d) then multiset(all)[d] else 0
  {
    if all == [] then []
    else
      var pre := all[..|all| - 1];
      var d := all[|all| - 1];
      assert all == pre + [d];
      var rest := OpenDefects(pre);
      OpenDefectsAppend(pre, d, rest);
      if IsOpen(d) then rest + [d] else rest
  }

  predicate IsOpen(d: Defect)
  {
    d.status == New || d.status == Triaged
  }

  /** One more defect at the end: it is kept exactly when it is open. */
  lemma OpenDefectsAppend(pre: seq<Defect>, d: Defect, rest: seq<Defect>)
    requires forall k :: 0 <= k < |rest| ==> IsOpen(rest[k])
    requires forall k :: 0 <= k < |pre| && IsOpen(pre[k]) ==> pre[k] in rest
    requires |rest| <= |pre|
    requires forall x :: multiset(rest)[x] == if IsOpen(x) then multiset(pre)[x] else 0
    ensures var r := if IsOpen(d) then rest + [d] else rest;
      (forall k :: 0 <= k < |r| ==> IsOpen(r[k]))
      && (forall k :: 0 <= k < |pre + [d]| && IsOpen((pre + [d])[k]) ==> (pre + [d])[k] in r)
      && |r| <= |pre + [d]|
      && (forall x :: multiset(r)[x] == if IsOpen(x) then multiset(pre + [d])[x] else 0)
  {
    assert multiset(pre + [d]) == multiset(pre) + multiset{d};
    assert forall k :: 0 <= k < |pre| ==> (pre + [d])[k] == pre[k];
    if IsOpen(d) {
      assert multiset(rest + [d]) == multiset(rest) + multiset{d};
    }
  }

  /** The lines of code of the run: the sum over its files, NaN (None) when one file has none. */
  function TotalLoc(files: seq<FileInfo>): (r: Option<int>)
    ensures r.None? <==> exists k :: 0 <= k < |files| && files[k].loc.None?
    ensures r.Some? && (forall k :: 0 <= k < |files| ==> files[k].loc.value >= 0) ==> r.value >= 0
  {
    if files == [] then Some(0)
    else
      var rest := TotalLoc(files[..|files| - 1]);
      assert forall k :: 0 <= k < |files| - 1 ==> files[k] == files[..|files| - 1][k];
      var f := files[|files| - 1];
      if rest.None? || f.loc.None? then None else Some(rest.value + f.loc.value)
  }

  /**
   * getGrade, with the run's files given as `files`: no grade exactly when a
   * file has no size or the run has no line at all (ClosedDefectIgnored: only
   * open defects weigh).
   */
  function GetGrade(allDefects: seq<Defect>, files: seq<FileInfo>): (r: Grade)
    ensures r == NoGrade <==> TotalLoc(files).None? || TotalLoc(files) == Some(0)
  {
    Compute(OpenDefects(allDefects), TotalLoc(files))
  }

  /** A dismissed or fixed defect does not weigh on the grade. */
  lemma ClosedDefectIgnored(allDefects: seq<Defect>, d: Defect, files: seq<FileInfo>)
    requires d.status == Dismissed || d.status == Fixed
    ensures GetGrade(allDefects + [d], files) == GetGrade(allDefects, files)
  {
    assert (allDefects + [d])[..|allDefects|] == allDefects;
  }
}
