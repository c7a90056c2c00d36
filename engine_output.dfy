/**
 * Reading the analysis engine's output, one line at a time: finding lines
 * `[Impact][RULE] message (file:L:C-L:C)`, per-file size lines
 * `# File: <total> <loc> <name>`, the type-analysis timeout marker and the
 * total-time marker that the engine prints when it ends normally; and the
 * command lines the engine is started with.
 */
module EngineOutput {
  import opened JsStrings
  import opened DefectCode

  const FileInfoMarker: string := "# File: "
  const TypeTimeoutMarker: string := "* Timeout occurred during type analysis:"
  const TotalTimeMarker: string := "# Total time(s):"

  // ---------------------------------------------------------------------------
  // getStartIndexOfPath

  /**
   * The position of the k-th last c, found the way the source does it: take
   * the last c, cut the text before it and repeat; -1 once none is left.
   */
  function NthLastIndex(s: string, c: char, k: nat): (r: int)
    requires k >= 1
    ensures r == -1 || (0 <= r < |s| && s[r] == c)
    decreases k
  {
    if k == 1 then LastIndexOf(s, c)
    else
      var p := NthLastIndex(s, c, k - 1);
      if p == -1 then -1 else LastIndexOf(s[..p], c)
  }

  /** The number of ')' after the last '(' (in the whole text when there is no '('). */
  function ClosesAfterLastOpen(text: string): nat
  {
    CountChar(SubstringFrom(text, LastIndexOf(text, '(')), ')')
  }

  /** How many '(' the path opening lies back from the end: one per ')' after the last '(', at least one. */
  function OpensBack(text: string): nat
  {
    if ClosesAfterLastOpen(text) >= 2 then ClosesAfterLastOpen(text) else 1
  }

  /** The index of the '(' that opens the `(file:location)` part of a finding. */
  function PathOpenIndex(text: string): int
  {
    NthLastIndex(text, '(', OpensBack(text))
  }

  /** The text before position `index`, empty when there is none (-1). */
  function Before(text: string, index: int): string
    requires index < |text|
  {
    if index >= 0 then text[..index] else []
  }

  /** getStartIndexOfPath: shrink the text before the last '(' once per extra ')'. */
  method GetStartIndexOfPath(text: string) returns (index: int)
    ensures index == PathOpenIndex(text)
  {
    var t := text;
    index := LastIndexOf(t, '(');
    var str := SubstringFrom(t, index);
    t := Substring(t, 0, index);
    assert t == Before(text, index);
    var splitStr := Split(str, ')');
    var length := |splitStr|;
    OpensBackOf(text, length);
    if length == 2 {
      return;
    }
    var i := length;
    ghost var k: nat := 1;
    while i > 2
      invariant 1 <= i <= length && k == length - i + 1
      invariant length >= 2 ==> i >= 2
      invariant AtOpen(text, k, index, t)
    {
      index, t := StepBack(text, k, index, t);
      i := i - 1;
      k := k + 1;
    }
    assert i == 2 || length == 1;
    assert k == OpensBack(text);
  }

  /** `index` is the k-th last '(' of the text and `t` the text before it. */
  ghost predicate AtOpen(text: string, k: nat, index: int, t: string)
  {
    k >= 1 && index == NthLastIndex(text, '(', k) && t == Before(text, index)
  }

  /** One turn of getStartIndexOfPath's loop: back to the previous '(' and cut the text there. */
  method StepBack(ghost text: string, ghost k: nat, ghost at: int, t: string) returns (index: int, rest: string)
    requires AtOpen(text, k, at, t)
    ensures AtOpen(text, k + 1, index, rest)
  {
    NthLastIndexStep(text, k, t);
    index := LastIndexOf(t, '(');
    rest := Substring(t, 0, index);
  }

  /** The count getStartIndexOfPath takes from the pieces of the text after the last '('. */
  lemma OpensBackOf(text: string, length: int)
    requires length == |Split(SubstringFrom(text, LastIndexOf(text, '(')), ')')|
    ensures OpensBack(text) == if length >= 3 then length - 1 else 1
  {
  }

  /** One more step back: the last '(' before the current one. */
  lemma NthLastIndexStep(text: string, k: nat, t: string)
    requires k >= 1
    requires t == Before(text, NthLastIndex(text, '(', k))
    ensures var q := LastIndexOf(t, '(');
      q == NthLastIndex(text, '(', k + 1) && Substring(t, 0, q) == Before(text, q)
  {
    var q := LastIndexOf(t, '(');
    if q >= 0 {
      assert t[..q] == text[..q];
    }
  }

  lemma CountCharCons(c: char, t: string, d: char)
    ensures CountChar([c] + t, d) == (if c == d then 1 else 0) + CountChar(t, d)
  {
    assert ([c] + t)[1..] == t;
  }

  /** From the last c on, c occurs once. */
  lemma CountFromLast(s: string, c: char, r: int)
    requires 0 <= r < |s| && s[r] == c && c !in s[r + 1..]
    ensures CountChar(s[r..], c) == 1
  {
    assert s[r..] == [c] + s[r + 1..];
    CountCharCons(c, s[r + 1..], c);
  }

  lemma CutAt(s: string, r: int, p: int)
    requires 0 <= r <= p <= |s|
    ensures s == s[..p] + s[p..]
    ensures s[r..] == s[..p][r..] + s[p..]
  {
  }

  /** `r` is the c with exactly k occurrences of c from it on, or -1 when there are fewer than k. */
  predicate IsNthLast(s: string, c: char, k: nat, r: int)
  {
    (r == -1 <==> CountChar(s, c) < k)
    && (r >= 0 ==> 0 <= r < |s| && s[r] == c && CountChar(s[r..], c) == k)
  }

  /** The k-th last c is the c with exactly k occurrences of c from it on; -1 when there are fewer than k. */
  lemma NthLastIndexCount(s: string, c: char, k: nat)
    requires k >= 1
    ensures var r := NthLastIndex(s, c, k);
      (r == -1 <==> CountChar(s, c) < k)
      && (r >= 0 ==> s[r] == c && CountChar(s[r..], c) == k)
  {
    NthLastIndexIs(s, c, k);
  }

  lemma {:induction false} NthLastIndexIs(s: string, c: char, k: nat)
    requires k >= 1
    ensures IsNthLast(s, c, k, NthLastIndex(s, c, k))
    decreases k
  {
    if k == 1 {
      var r := LastIndexOf(s, c);
      if r >= 0 {
        CountFromLast(s, c, r);
      }
    } else {
      NthLastIndexIs(s, c, k - 1);
      NthLastIndexStepCount(s, c, k - 1, NthLastIndex(s, c, k - 1));
    }
  }

  /** NthLastIndexCount for k + 1, from the fact for k. */
  lemma NthLastIndexStepCount(s: string, c: char, k: nat, p: int)
    requires k >= 1 && p == NthLastIndex(s, c, k) && IsNthLast(s, c, k, p)
    ensures IsNthLast(s, c, k + 1, NthLastIndex(s, c, k + 1))
  {
    if p >= 0 {
      CountBeforeNth(s, c, k, p);
    }
  }

  /** One step of NthLastIndexCount: the last c before the (k-1)-th last one. */
  lemma CountBeforeNth(s: string, c: char, k: nat, p: int)
    requires 0 <= p < |s| && s[p] == c && CountChar(s[p..], c) == k
    ensures var r := LastIndexOf(s[..p], c);
      (r == -1 <==> CountChar(s, c) < k + 1)
      && (r >= 0 ==> s[r] == c && CountChar(s[r..], c) == k + 1)
  {
    var a := s[..p];
    var r := LastIndexOf(a, c);
    CutAt(s, 0, p);
    CountCharConcat(a, s[p..], c);
    if r >= 0 {
      CutAt(s, r, p);
      CountFromLast(a, c, r);
      CountCharConcat(a[r..], s[p..], c);
    }
  }

  /**
   * The index getStartIndexOfPath finds is the '(' with OpensBack(text)
   * occurrences of '(' from it on, or -1 when the text has fewer.
   */
  lemma PathOpenIndexCount(text: string)
    ensures var r := PathOpenIndex(text);
      (r == -1 <==> CountChar(text, '(') < OpensBack(text))
      && (r >= 0 ==> text[r] == '(' && CountChar(text[r..], '(') == OpensBack(text))
  {
    NthLastIndexCount(text, '(', OpensBack(text));
  }

  /** With at most one ')' after the last '(', the path opens at the last '('. */
  lemma PathOpenIndexLast(text: string)
    requires ClosesAfterLastOpen(text) <= 1
    ensures PathOpenIndex(text) == LastIndexOf(text, '(')
  {
  }

  // ---------------------------------------------------------------------------
  // a finding line

  /** The message, file and location read from the text after the first "] ". */
  datatype Place = Place(message: string, file: string, location: string)

  /** The parts of the text when the path opens at `index`. */
  function PlaceAt(step2: string, index: int): Place
  {
    PlaceIn(Substring(step2, 0, index), SubstringFrom(step2, index + 1))
  }

  /** The message, then the file and the location read from the text after the '(' (without the closing ')'). */
  function PlaceIn(message: string, step3: string): Place
  {
    var colon := FirstIndexOf(step3, ':');
    Place(message, Substring(step3, 0, colon), Substring(step3, colon + 1, |step3| - 1))
  }

  /**
   * The place read from the text after the first "] ": the message is the
   * text before the '(' that opens the path (empty when there is none), and
   * the file stops before the first ':' after it.
   */
  function PlaceOf(step2: string): (r: Place)
    ensures PathOpenIndex(step2) >= 0 ==> r.message == step2[..PathOpenIndex(step2)]
    ensures PathOpenIndex(step2) == -1 ==> r.message == ""
    ensures ':' !in r.file
  {
    PlaceAt(step2, PathOpenIndex(step2))
  }

  /** The fields of a finding line; `name` is None where JavaScript gives `undefined`. */
  datatype FindingFields = FindingFields(impact: string, name: Option<string>, place: Place)

  /** The engine marks a finding by its impact in brackets. */
  predicate IsFindingLine(line: string)
  {
    Contains(line, "[High]") || Contains(line, "[Medium]") || Contains(line, "[Low]")
  }

  /**
   * The fields of a finding line, or None where the source throws: the text
   * before the first "] " has no '[' and the impact cannot be read.
   */
  function FindingFieldsOf(line: string): (r: Option<FindingFields>)
    ensures r.None? <==> '[' !in BeforeFirst(line, "] ")
  {
    var pieces := Split(BeforeFirst(line, "] "), '[');
    if |pieces| < 2 then None
    else
      var impact := Split(pieces[1], ']')[0];
      var name := if |pieces| >= 3 then Some(pieces[2]) else None;
      Some(FindingFields(impact, name, PlaceOf(SubstringFrom(line, IndexOf(line, "] ") + 2))))
  }

  /**
   * A line `[impact][name] rest`, with no bracket in the impact or the name,
   * gives that impact and name and the place read from rest (rest may hold
   * brackets and further "] ").
   */
  lemma FindingFieldsOfShape(impact: string, name: string, rest: string)
    requires '[' !in impact && ']' !in impact && '[' !in name && ']' !in name
    ensures FindingFieldsOf("[" + impact + "][" + name + "] " + rest)
         == Some(FindingFields(impact, Some(name), PlaceOf(rest)))
  {
    var head := "[" + impact + "][" + name;
    var line := head + "] " + rest;
    FirstCloseSpace(impact, name, rest);
    assert line[..|head|] == head;
    assert line[|head| + 2..] == rest;
    HeadPieces(impact, name);
    SplitPrefix(impact, ']', "");
    assert impact + [']'] + "" == impact + "]";
    FieldsFromParts(line, impact, name, rest);
  }

  lemma FieldsFromParts(line: string, impact: string, name: string, rest: string)
    requires Split(BeforeFirst(line, "] "), '[') == ["", impact + "]", name]
    requires Split(impact + "]", ']')[0] == impact
    requires SubstringFrom(line, IndexOf(line, "] ") + 2) == rest
    ensures FindingFieldsOf(line) == Some(FindingFields(impact, Some(name), PlaceOf(rest)))
  {
  }

  /** The first "] " of such a line is the one after the name. */
  lemma FirstCloseSpace(impact: string, name: string, rest: string)
    requires ']' !in impact && ']' !in name
    ensures IndexOf("[" + impact + "][" + name + "] " + rest, "] ") == |impact| + |name| + 3
  {
    var head := "[" + impact + "][" + name;
    var line := head + "] " + rest;
    assert line[|head|..|head| + 2] == "] ";
    forall j | 0 <= j < |head| ensures !MatchAt(line, "] ", j) {
      assert j + 2 <= |line| ==> line[j..j + 2][0] == line[j] && line[j..j + 2][1] == line[j + 1];
      if j == |impact| + 1 {
        assert line[j + 1] == '[';
      } else {
        assert line[j] == head[j];
        assert head[j] != ']' by {
          if 1 <= j <= |impact| {
            assert head[j] == impact[j - 1];
          } else if j >= |impact| + 3 {
            assert head[j] == name[j - |impact| - 3];
          }
        }
      }
    }
    IndexOfAt(line, "] ", |head|);
  }

  /** `[impact][name` splits at '[' into an empty piece, `impact]` and the name. */
  lemma HeadPieces(impact: string, name: string)
    requires '[' !in impact && ']' !in impact && '[' !in name
    ensures Split("[" + impact + "][" + name, '[') == ["", impact + "]", name]
  {
    var a := impact + "]";
    var tail := a + ['['] + name;
    assert "][" == "]" + ['['];
    assert "[" + impact + "][" + name == ['['] + tail;
    assert ['['] + tail == [] + ['['] + tail;
    assert '[' !in a;
    SplitPrefix(a, '[', name);
    SplitNone(name, '[');
    assert Split(tail, '[') == [a, name];
    SplitPrefix([], '[', tail);
  }

  /** An example line of the engine's output format, with a parenthesised file name. */
  lemma FindingFieldsEvalExample()
    ensures FindingFieldsOf("[Low][UNDEFINED] " + "document.form1 is undefined (@eval(6):1:1-1:15)")
         == Some(FindingFields("Low", Some("UNDEFINED"),
                   Place("document.form1 is undefined ", "@eval(6)", "1:1-1:15")))
  {
    var text := "document.form1 is undefined (@eval(6):1:1-1:15)";
    assert "[" + "Low" + "][" + "UNDEFINED" + "] " == "[Low][UNDEFINED] ";
    FindingFieldsOfShape("Low", "UNDEFINED", text);
    PlaceOfEvalExample();
  }

  /** A finding whose file is neither cached nor on disk gives an alarm without a code fragment. */
  lemma AlarmOfMissingFile(cache: map<string, seq<string>>, disk: map<string, string>, line: string)
    requires FindingFieldsOf(line).Some?
    requires var p := FindingFieldsOf(line).value.place;
      p.file !in cache && p.file !in disk && |Split(p.location, '-')| >= 2
    ensures var f := FindingFieldsOf(line).value;
      AlarmOf(cache, disk, line)
      == (cache, AddAlarm(EngineAlarm(f.impact, f.name, f.place.message, f.place.file, f.place.location, None)))
  {
  }

  /** Once the path is known to open at the '(' after the message, the rest splits at its first ':'. */
  lemma PlaceOfOpenAt(message: string, rest: string)
    requires PathOpenIndex(message + ['('] + rest) == |message|
    ensures PlaceOf(message + ['('] + rest) == PlaceIn(message, rest)
  {
    PlaceAtOpen(message, rest);
  }

  lemma PlaceAtOpen(message: string, rest: string)
    ensures PlaceAt(message + ['('] + rest, |message|) == PlaceIn(message, rest)
  {
    var text := message + ['('] + rest;
    HeadBeforeOpen(message, rest);
    TailAfterOpen(message, rest);
    PlaceAtParts(text, |message|, message, rest);
  }

  lemma HeadBeforeOpen(message: string, rest: string)
    ensures Substring(message + ['('] + rest, 0, |message|) == message
  {
    AroundChar(message, '(', rest);
  }

  lemma TailAfterOpen(message: string, rest: string)
    ensures SubstringFrom(message + ['('] + rest, |message| + 1) == rest
  {
    AroundChar(message, '(', rest);
  }

  lemma PlaceAtParts(text: string, index: int, head: string, tail: string)
    requires Substring(text, 0, index) == head && SubstringFrom(text, index + 1) == tail
    ensures PlaceAt(text, index) == PlaceIn(head, tail)
  {
  }

  /** `file:location)` splits into the file and the location when the file has no ':'. */
  lemma PlaceInFile(message: string, file: string, location: string)
    requires ':' !in file
    ensures PlaceIn(message, file + [':'] + location + [')']) == Place(message, file, location)
  {
    FileAndLocation(file, location);
  }

  lemma FileAndLocation(file: string, location: string)
    requires ':' !in file
    ensures var rest := file + [':'] + location + [')'];
      FirstIndexOf(rest, ':') == |file|
      && Substring(rest, 0, |file|) == file
      && Substring(rest, |file| + 1, |rest| - 1) == location
  {
    var rest := file + [':'] + location + [')'];
    FirstIndexOfAt(file, ':', location + [')']);
    assert rest == file + [':'] + (location + [')']);
    assert rest[..|file|] == file;
    assert rest[|file| + 1..|rest| - 1] == location;
  }

  lemma AroundChar(head: string, c: char, tail: string)
    ensures (head + [c] + tail)[..|head|] == head
    ensures (head + [c] + tail)[|head|..] == [c] + tail
    ensures (head + [c] + tail)[|head| + 1..] == tail
  {
  }

  /** The ')' counted after the last '(' are those of the text that follows it. */
  lemma ClosesAfterLast(head: string, tail: string)
    requires '(' !in tail
    ensures ClosesAfterLastOpen(head + ['('] + tail) == CountChar(tail, ')')
  {
    var text := head + ['('] + tail;
    LastIndexOfAt(head, '(', tail);
    AroundChar(head, '(', tail);
    CountCharCons('(', tail, ')');
  }

  /** The second last '(' is the last '(' before the last one. */
  lemma SecondLastOpen(head: string, tail: string)
    requires '(' !in tail
    ensures NthLastIndex(head + ['('] + tail, '(', 2) == LastIndexOf(head, '(')
  {
    LastIndexOfAt(head, '(', tail);
    AroundChar(head, '(', tail);
  }

  /** With a single ')' after the last '(', the path opens at that '('. */
  lemma OpensAtLast(message: string, rest: string)
    requires '(' !in rest && CountChar(rest, ')') == 1
    ensures PathOpenIndex(message + ['('] + rest) == |message|
  {
    ClosesAfterLast(message, rest);
    LastIndexOfAt(message, '(', rest);
  }

  /** With two ')' after the last '(', the path opens at the '(' before it. */
  lemma OpensOneBack(message: string, f1: string, tail: string)
    requires '(' !in f1 && '(' !in tail && CountChar(tail, ')') == 2
    ensures PathOpenIndex(message + ['('] + f1 + ['('] + tail) == |message|
  {
    var head := message + ['('] + f1;
    ClosesAfterLast(head, tail);
    SecondLastOpen(head, tail);
    LastIndexOfAt(message, '(', f1);
  }

  lemma ClosesOnce(x: string)
    requires ')' !in x
    ensures CountChar(x + [')'], ')') == 1
  {
    CountCharConcat(x, [')'], ')');
  }

  lemma PlainShape(message: string, file: string, location: string)
    ensures message + "(" + file + ":" + location + ")" == message + ['('] + (file + [':'] + location + [')'])
  {
  }

  lemma GroupedShape(message: string, f1: string, f2: string, f3: string, location: string)
    ensures message + "(" + (f1 + "(" + f2 + ")" + f3) + ":" + location + ")"
         == message + ['('] + ((f1 + ['('] + f2 + [')'] + f3) + [':'] + location + [')'])
    ensures message + ['('] + ((f1 + ['('] + f2 + [')'] + f3) + [':'] + location + [')'])
         == message + ['('] + f1 + ['('] + ((f2 + [')']) + (f3 + [':'] + location + [')']))
  {
  }

  lemma GroupedNoColon(f1: string, f2: string, f3: string)
    requires ':' !in f1 && ':' !in f2 && ':' !in f3
    ensures ':' !in f1 + ['('] + f2 + [')'] + f3
    ensures f1 + "(" + f2 + ")" + f3 == f1 + ['('] + f2 + [')'] + f3
  {
  }

  /**
   * A message followed by `(file:location)`, with no parenthesis in the file
   * or the location and no ':' in the file, is read back into its three parts.
   */
  lemma PlaceOfPlainFile(message: string, file: string, location: string)
    requires '(' !in file && ')' !in file && ':' !in file
    requires '(' !in location && ')' !in location
    ensures PlaceOf(message + "(" + file + ":" + location + ")") == Place(message, file, location)
  {
    var rest := file + [':'] + location + [')'];
    PlainShape(message, file, location);
    ClosesOnce(file + [':'] + location);
    OpensAtLast(message, rest);
    PlaceOfOpenAt(message, rest);
    PlaceInFile(message, file, location);
  }

  /**
   * The same when the file name carries one parenthesised group, as in
   * `@eval(6)`: the extra ')' makes the search step back over the '(' inside
   * the file name.
   */
  lemma PlaceOfGroupedFile(message: string, f1: string, f2: string, f3: string, location: string)
    requires '(' !in f1 && ')' !in f1 && ':' !in f1
    requires '(' !in f2 && ')' !in f2 && ':' !in f2
    requires '(' !in f3 && ')' !in f3 && ':' !in f3
    requires '(' !in location && ')' !in location
    ensures PlaceOf(message + "(" + (f1 + "(" + f2 + ")" + f3) + ":" + location + ")")
         == Place(message, f1 + "(" + f2 + ")" + f3, location)
  {
    var file := f1 + ['('] + f2 + [')'] + f3;
    var rest := file + [':'] + location + [')'];
    var tail := (f2 + [')']) + (f3 + [':'] + location + [')']);
    GroupedShape(message, f1, f2, f3, location);
    ClosesOnce(f2);
    ClosesOnce(f3 + [':'] + location);
    CountCharConcat(f2 + [')'], f3 + [':'] + location + [')'], ')');
    OpensOneBack(message, f1, tail);
    PlaceOfOpenAt(message, rest);
    GroupedNoColon(f1, f2, f3);
    PlaceInFile(message, file, location);
  }

  /** The example of the engine's output format with a parenthesised file name. */
  lemma PlaceOfEvalExample()
    ensures PlaceOf("document.form1 is undefined (@eval(6):1:1-1:15)")
         == Place("document.form1 is undefined ", "@eval(6)", "1:1-1:15")
  {
    EvalFileName();
    EvalLine();
    PlaceOfGroupedFile("document.form1 is undefined ", "@eval", "6", "", "1:1-1:15");
  }

  lemma EvalLine()
    ensures "document.form1 is undefined " + "(" + "@eval(6)" + ":" + "1:1-1:15" + ")"
         == "document.form1 is undefined (@eval(6):1:1-1:15)"
  {
  }

  lemma EvalFileName()
    ensures "@eval" + "(" + "6" + ")" + "" == "@eval(6)"
  {
  }

  // ---------------------------------------------------------------------------
  // readCodeFragment

  /** The outcome of reading a snippet: the file cannot be read, the source throws, or a fragment. */
  datatype CodeRead = NoFile | Threw | Read(fragment: Fragment)

  /** A line cache agrees with the files: every cached entry is its file split at '\n'. */
  predicate CacheAgrees(cache: map<string, seq<string>>, disk: map<string, string>)
  {
    forall f :: f in cache ==> f in disk && cache[f] == Split(disk[f], '\n')
  }

  /** The four numbers of `L:C-L:C`; a component that is not a plain decimal number reads as None. */
  datatype SpanNumbers = SpanNumbers(startLine: Option<nat>, startColumn: Option<nat>, endLine: Option<nat>, endColumn: Option<nat>)

  function Component(parts: seq<string>, i: nat): Option<nat>
  {
    if i < |parts| then DecimalNumber(parts[i]) else None
  }

  function SpanNumbersOf(startPart: string, endPart: string): SpanNumbers
  {
    var s := Split(startPart, ':');
    var e := Split(endPart, ':');
    SpanNumbers(Component(s, 0), Component(s, 1), Component(e, 0), Component(e, 1))
  }

  /**
   * readCodeFragment: the lines come from the per-run cache, or from the file,
   * which are then cached; the fragment for the location follows.
   * `disk` holds the files of the analysed directory, by the path the engine prints.
   */
  function ReadCodeFragment(cache: map<string, seq<string>>, disk: map<string, string>, file: string, location: string)
    : (r: (map<string, seq<string>>, CodeRead))
    ensures r.1.NoFile? <==> |Split(location, '-')| >= 2 && file !in cache && file !in disk
    ensures r.0 == cache
         || (|Split(location, '-')| >= 2 && file !in cache && file in disk
             && r.0 == cache[file := Split(disk[file], '\n')])
    ensures |Split(location, '-')| < 2 ==> r == (cache, Threw)
    ensures |Split(location, '-')| >= 2 && (file in cache || file in disk) ==>
              var lines := if file in cache then cache[file] else Split(disk[file], '\n');
              r.0 == cache[file := lines]
              && r.1 == FragmentOf(lines, SpanNumbersOf(Split(location, '-')[0], Split(location, '-')[1]))
  {
    var startEnd := Split(location, '-');
    if |startEnd| < 2 then (cache, Threw)
    else
      var n := SpanNumbersOf(startEnd[0], startEnd[1]);
      if file !in cache && file !in disk then (cache, NoFile)
      else
        var lines := if file in cache then cache[file] else Split(disk[file], '\n');
        (cache[file := lines], FragmentOf(lines, n))
  }

  /**
   * The fragment of the lines for the span. Threw is the source's throw on a
   * line outside the file; a component that is not a plain run of digits is
   * Threw as well, where the source goes on with NaN.
   */
  function FragmentOf(lines: seq<string>, n: SpanNumbers): (r: CodeRead)
    ensures !r.NoFile?
    ensures r.Threw? <==> n.startLine.None? || n.startColumn.None? || n.endLine.None? || n.endColumn.None?
                          || !InFile(lines, n.startLine.value, n.endLine.value)
    ensures r.Read? ==>
              r.fragment == DefectCode.DefectCode(lines, n.startLine.value, n.startColumn.value,
                                                   n.endLine.value, n.endColumn.value).value
  {
    if n.startLine.None? || n.startColumn.None? || n.endLine.None? || n.endColumn.None? then Threw
    else
      match DefectCode.DefectCode(lines, n.startLine.value, n.startColumn.value, n.endLine.value, n.endColumn.value)
      case None => Threw
      case Some(f) => Read(f)
  }

  /**
   * The cache changes no outcome: with a cache that agrees with the files,
   * the fragment is the one read straight from the file, and the cache still
   * agrees afterwards.
   */
  lemma CacheIsTransparent(cache: map<string, seq<string>>, disk: map<string, string>, file: string, location: string)
    requires CacheAgrees(cache, disk)
    ensures ReadCodeFragment(cache, disk, file, location).1 == ReadCodeFragment(map[], disk, file, location).1
    ensures CacheAgrees(ReadCodeFragment(cache, disk, file, location).0, disk)
  {
  }

  // ---------------------------------------------------------------------------
  // per-file size lines

  /** The pieces without the empty ones: each nonempty piece as often as before (DropEmptyConcat: in order). */
  function DropEmpty(ps: seq<string>): (r: seq<string>)
    ensures forall i :: 0 <= i < |r| ==> r[i] != []
    ensures forall x :: x in r ==> x in ps
    ensures forall x :: multiset(r)[x] == if x == [] then 0 else multiset(ps)[x]
  {
    if ps == [] then []
    else
      assert ps == [ps[0]] + ps[1..];
      if ps[0] == [] then DropEmpty(ps[1..])
      else [ps[0]] + DropEmpty(ps[1..])
  }

  /**
   * `s.split(/[ ]+/)`: runs of spaces separate the tokens; only a leading or
   * trailing run gives an empty first or last token.
   */
  function SplitSpaces(s: string): (r: seq<string>)
    ensures |r| >= 1
    ensures forall i :: 0 <= i < |r| ==> ' ' !in r[i]
    ensures forall i :: 0 < i < |r| - 1 ==> r[i] != []
  {
    var p := Split(s, ' ');
    if |p| == 1 then p
    else
      var mid := DropEmpty(p[1..|p| - 1]);
      FramedPieces(p, mid);
      [p[0]] + mid + [p[|p| - 1]]
  }

  /** The first and last pieces around the nonempty interior pieces. */
  lemma FramedPieces(p: seq<string>, mid: seq<string>)
    requires |p| >= 2
    requires forall i :: 0 <= i < |p| ==> ' ' !in p[i]
    requires forall x :: x in mid ==> x in p[1..|p| - 1]
    requires forall i :: 0 <= i < |mid| ==> mid[i] != []
    ensures var r := [p[0]] + mid + [p[|p| - 1]];
      (forall i :: 0 <= i < |r| ==> ' ' !in r[i]) && (forall i :: 0 < i < |r| - 1 ==> r[i] != [])
  {
    var r := [p[0]] + mid + [p[|p| - 1]];
    forall i | 0 <= i < |r| ensures ' ' !in r[i] {
      if 0 < i < |r| - 1 {
        assert r[i] == mid[i - 1] && mid[i - 1] in mid;
        var inner := p[1..|p| - 1];
        var j :| 0 <= j < |inner| && inner[j] == mid[i - 1];
        assert inner[j] == p[j + 1];
      }
    }
    forall i | 0 < i < |r| - 1 ensures r[i] != [] {
      assert r[i] == mid[i - 1];
    }
  }

  /** A `# File:` line: name, lines of code and total lines; None where JavaScript gives undefined or NaN. */
  datatype FileInfo = FileInfo(name: Option<string>, loc: Option<int>, totalLines: Option<int>)

  function Token(tokens: seq<string>, i: nat): Option<string>
  {
    if i < |tokens| then Some(tokens[i]) else None
  }

  function ParseIntToken(t: Option<string>): Option<int>
  {
    if t.None? then None else ParseInt(t.value)
  }

  /**
   * getFileInfoFromLinedLog: the fifth, fourth and third space-separated
   * tokens are the name, the lines of code and the total lines; each is
   * undefined when the line has too few tokens.
   */
  function FileInfoOf(line: string): (r: FileInfo)
    ensures r.name.Some? <==> |SplitSpaces(line)| >= 5
    ensures r.loc.Some? ==> |SplitSpaces(line)| >= 4
    ensures r.totalLines.Some? ==> |SplitSpaces(line)| >= 3
  {
    var tokens := SplitSpaces(line);
    FileInfo(Token(tokens, 4), ParseIntToken(Token(tokens, 3)), ParseIntToken(Token(tokens, 2)))
  }

  predicate AllSpaces(s: string)
  {
    forall i :: 0 <= i < |s| ==> s[i] == ' '
  }

  /** n empty pieces, as `split` gives between the spaces of a run. */
  function Blanks(n: nat): (r: seq<string>)
    ensures |r| == n
  {
    seq(n, i => "")
  }

  lemma BlanksCons(n: nat)
    requires n >= 1
    ensures Blanks(n) == [""] + Blanks(n - 1)
  {
  }

  /** A run of n spaces before x splits into n empty pieces before the pieces of x. */
  lemma {:induction false} SplitLeadingSpaces(run: string, x: string)
    requires AllSpaces(run)
    ensures Split(run + x, ' ') == Blanks(|run|) + Split(x, ' ')
    decreases |run|
  {
    if run != [] {
      LeadingSpace(run, x);
      SplitPrefix([], ' ', run[1..] + x);
      assert AllSpaces(run[1..]) by {
        forall i | 0 <= i < |run[1..]| ensures run[1..][i] == ' ' {
          assert run[1..][i] == run[i + 1];
        }
      }
      SplitLeadingSpaces(run[1..], x);
      BlanksCons(|run|);
      ConsAssoc("", Blanks(|run| - 1), Split(x, ' '));
    } else {
      assert run + x == x;
    }
  }

  lemma ConsAssoc(a: string, b: seq<string>, c: seq<string>)
    ensures [a] + (b + c) == ([a] + b) + c
  {
  }

  lemma LeadingSpace(run: string, x: string)
    requires |run| >= 1 && run[0] == ' '
    ensures run + x == [] + [' '] + (run[1..] + x)
  {
    assert run == [run[0]] + run[1..];
  }

  lemma TokenShape(tok: string, run: string, rest: string)
    requires |run| >= 1 && run[0] == ' '
    ensures tok + run + rest == tok + [' '] + (run[1..] + rest)
  {
    assert run == [run[0]] + run[1..];
  }

  /** A space-free token, a run of spaces and the rest: the token, blanks, then the pieces of the rest. */
  lemma SplitToken(tok: string, run: string, rest: string)
    requires ' ' !in tok && |run| >= 1 && AllSpaces(run)
    ensures Split(tok + run + rest, ' ') == [tok] + (Blanks(|run| - 1) + Split(rest, ' '))
  {
    TokenShape(tok, run, rest);
    SplitPrefix(tok, ' ', run[1..] + rest);
    SplitLeadingSpaces(run[1..], rest);
  }

  lemma DropEmptyConcat(a: seq<string>, b: seq<string>)
    ensures DropEmpty(a + b) == DropEmpty(a) + DropEmpty(b)
    decreases |a|
  {
    if a != [] {
      assert (a + b)[1..] == a[1..] + b;
      DropEmptyConcat(a[1..], b);
    } else {
      assert a + b == b;
    }
  }

  lemma DropEmptyBlanks(n: nat)
    ensures DropEmpty(Blanks(n)) == []
  {
    if n > 0 {
      assert Blanks(n)[1..] == Blanks(n - 1);
      DropEmptyBlanks(n - 1);
    }
  }

  /** A nonempty token followed by blanks keeps the token and drops the blanks. */
  lemma DropEmptyLead(tok: string, n: nat, rest: seq<string>)
    requires tok != []
    ensures DropEmpty([tok] + (Blanks(n) + rest)) == [tok] + DropEmpty(rest)
  {
    assert ([tok] + (Blanks(n) + rest))[1..] == Blanks(n) + rest;
    DropEmptyConcat(Blanks(n), rest);
    DropEmptyBlanks(n);
  }

  lemma SizeLineShape(run1: string, total: string, run2: string, loc: string, run3: string, name: string)
    ensures "# File:" + run1 + total + run2 + loc + run3 + name
         == "#" + [' '] + ("File:" + run1 + (total + run2 + (loc + run3 + name)))
  {
  }

  lemma PiecesShape(a: string, b1: seq<string>, c: string, b2: seq<string>, d: string, b3: seq<string>, name: string)
    ensures ["#"] + ([a] + (b1 + ([c] + (b2 + ([d] + (b3 + [name]))))))
         == ["#"] + ([a] + (b1 + ([c] + (b2 + ([d] + (b3 + [])))))) + [name]
  {
  }

  /** When the pieces are a first, a middle and a last, the empty middle pieces are dropped. */
  lemma SplitSpacesOf(s: string, first: string, mid: seq<string>, last: string)
    requires Split(s, ' ') == [first] + mid + [last]
    ensures SplitSpaces(s) == [first] + DropEmpty(mid) + [last]
  {
    var p := [first] + mid + [last];
    assert p[1..|p| - 1] == mid;
  }

  lemma ThreeTokens(h: string, a: string, b: string, c: string, t: string)
    ensures [h] + ([a] + ([b] + ([c] + []))) + [t] == [h, a, b, c, t]
  {
  }

  /**
   * A size line `# File:<spaces><total><spaces><loc><spaces><name>` gives the
   * name, the lines of code and the total lines.
   */
  lemma FileInfoOfSizeLine(run1: string, total: string, run2: string, loc: string, run3: string, name: string)
    requires |run1| >= 1 && |run2| >= 1 && |run3| >= 1
    requires AllSpaces(run1) && AllSpaces(run2) && AllSpaces(run3)
    requires ' ' !in total && ' ' !in loc && ' ' !in name
    requires total != [] && loc != [] && name != []
    ensures FileInfoOf("# File:" + run1 + total + run2 + loc + run3 + name)
         == FileInfo(Some(name), ParseInt(loc), ParseInt(total))
  {
    var line := "# File:" + run1 + total + run2 + loc + run3 + name;
    var b1, b2, b3 := Blanks(|run1| - 1), Blanks(|run2| - 1), Blanks(|run3| - 1);
    var r2 := loc + run3 + name;
    var r1 := total + run2 + r2;
    var x := "File:" + run1 + r1;
    SizeLineShape(run1, total, run2, loc, run3, name);
    assert line == "#" + [' '] + x;
    SplitNone(name, ' ');
    SplitToken(loc, run3, name);
    SplitToken(total, run2, r2);
    SplitToken("File:", run1, r1);
    SplitPrefix("#", ' ', x);
    var mid := ["File:"] + (b1 + ([total] + (b2 + ([loc] + (b3 + [])))));
    PiecesShape("File:", b1, total, b2, loc, b3, name);
    assert Split(line, ' ') == ["#"] + mid + [name];
    SplitSpacesOf(line, "#", mid, name);
    DropEmptyLead(loc, |run3| - 1, []);
    DropEmptyLead(total, |run2| - 1, [loc] + (b3 + []));
    DropEmptyLead("File:", |run1| - 1, [total] + (b2 + ([loc] + (b3 + []))));
    assert DropEmpty([]) == [];
    assert DropEmpty(mid) == ["File:"] + ([total] + ([loc] + []));
    ThreeTokens("#", "File:", total, loc, name);
    assert SplitSpaces(line) == ["#", "File:", total, loc, name];
  }

  // ---------------------------------------------------------------------------
  // the line handler

  /** A finding as the engine manager records it. */
  datatype EngineAlarm = EngineAlarm(
    impact: string, name: Option<string>, message: string, filePath: string, location: string,
    codeFragment: Option<Fragment>)

  /** What one output line does to its target. */
  datatype LineEffect =
    | AddAlarm(alarm: EngineAlarm)
    | AddFile(info: FileInfo)
    | TypeAnalysisTimedOut
    | Succeeded
    | NoEffect
    | Crash                    // the source throws inside the handler

  /** getAlarmFromLinedLog on a finding line: the alarm, or Crash where the source throws. */
  function AlarmOf(cache: map<string, seq<string>>, disk: map<string, string>, line: string)
    : (r: (map<string, seq<string>>, LineEffect))
    ensures r.1.AddAlarm? || r.1.Crash?
    ensures FindingFieldsOf(line).None? ==> r == (cache, Crash)
    ensures FindingFieldsOf(line).Some? ==>
              var place := FindingFieldsOf(line).value.place;
              var read := ReadCodeFragment(cache, disk, place.file, place.location);
              r.0 == read.0
              && (r.1.Crash? <==> read.1.Threw?)
              && (r.1.AddAlarm? ==> r.1.alarm.codeFragment == if read.1.Read? then Some(read.1.fragment) else None)
    ensures r.1.AddAlarm? ==>
              FindingFieldsOf(line).Some?
              && r.1.alarm.impact == FindingFieldsOf(line).value.impact
              && r.1.alarm.name == FindingFieldsOf(line).value.name
              && r.1.alarm.message == FindingFieldsOf(line).value.place.message
              && r.1.alarm.filePath == FindingFieldsOf(line).value.place.file
              && r.1.alarm.location == FindingFieldsOf(line).value.place.location
  {
    match FindingFieldsOf(line)
    case None => (cache, Crash)
    case Some(fields) =>
      var place := fields.place;
      var read := ReadCodeFragment(cache, disk, place.file, place.location);
      match read.1
      case Threw => (read.0, Crash)
      case NoFile => (read.0, AddAlarm(EngineAlarm(fields.impact, fields.name, place.message, place.file, place.location, None)))
      case Read(f) => (read.0, AddAlarm(EngineAlarm(fields.impact, fields.name, place.message, place.file, place.location, Some(f))))
  }

  /**
   * The `line` handler's dispatch: a finding first, then a size line, then
   * the type-analysis timeout marker, then the total-time marker.
   */
  function LineEffectOf(cache: map<string, seq<string>>, disk: map<string, string>, line: string)
    : (r: (map<string, seq<string>>, LineEffect))
    ensures IsFindingLine(line) ==> r.1.AddAlarm? || r.1.Crash?
    ensures !IsFindingLine(line) ==> r.0 == cache
    ensures !IsFindingLine(line) && Contains(line, FileInfoMarker) ==> r.1 == AddFile(FileInfoOf(line))
    ensures !IsFindingLine(line) && !Contains(line, FileInfoMarker) && Contains(line, TypeTimeoutMarker) ==>
              r.1 == TypeAnalysisTimedOut
    ensures !IsFindingLine(line) && !Contains(line, FileInfoMarker) && !Contains(line, TypeTimeoutMarker) ==>
              r.1 == (if Contains(line, TotalTimeMarker) then Succeeded else NoEffect)
  {
    if IsFindingLine(line) then AlarmOf(cache, disk, line)
    else if Contains(line, FileInfoMarker) then (cache, AddFile(FileInfoOf(line)))
    else if Contains(line, TypeTimeoutMarker) then (cache, TypeAnalysisTimedOut)
    else if Contains(line, TotalTimeMarker) then (cache, Succeeded)
    else (cache, NoEffect)
  }

  // ---------------------------------------------------------------------------
  // engine command lines

  /** createLiteAnalysisCommand: the arguments given to `nice`. */
  function CreateLiteAnalysisCommand(path: string, rules: seq<string>): (cmd: seq<string>)
    ensures |cmd| == 6 && cmd[3] == path && cmd[4] == "-rules"
    ensures |rules| >= 1 && (forall i :: 0 <= i < |rules| ==> ' ' !in rules[i]) ==> Split(cmd[5], ' ') == rules
  {
    SplitJoinRules(rules);
    ["-20", "bugda", "lite", path, "-rules", Join(rules, " ")]
  }

  lemma SplitJoinRules(rules: seq<string>)
    ensures |rules| >= 1 && (forall i :: 0 <= i < |rules| ==> ' ' !in rules[i]) ==> Split(Join(rules, " "), ' ') == rules
  {
    if |rules| >= 1 && (forall i :: 0 <= i < |rules| ==> ' ' !in rules[i]) {
      SplitJoin(rules, ' ');
    }
  }

  /**
   * createAnalysisCommand: `-browser` is passed only when browsers are given,
   * followed by their names (an empty list gives an empty argument).
   */
  function CreateAnalysisCommand(path: string, rules: seq<string>, browsers: Option<seq<string>>): (cmd: seq<string>)
    ensures browsers.None? ==> |cmd| == 7
    ensures browsers.Some? ==> |cmd| == 9 && cmd[7] == "-browser" && cmd[8] == Join(browsers.value, " ")
    ensures |cmd| >= 7 && cmd[3] == path && cmd[5] == "-rules"
    ensures |rules| >= 1 && (forall i :: 0 <= i < |rules| ==> ' ' !in rules[i]) ==> Split(cmd[6], ' ') == rules
  {
    SplitJoinRules(rules);
    var cmd := ["-20", "bugda", "analyze", path, "-no-verbose-iteration", "-rules", Join(rules, " ")];
    match browsers
    case None => cmd
    case Some(bs) => cmd + ["-browser", if |bs| > 0 then Join(bs, " ") else ""]
  }
}
