/**
 * The JavaScript string operations the analysis service is written with, with
 * their edge cases spelled out: `substring` clamps and swaps its arguments,
 * `indexOf`/`lastIndexOf` answer -1, `split` on a one-character separator always
 * yields at least one piece, `parseInt` reads a leading decimal (or, after
 * `0x`, hexadecimal) prefix.
 * Strings are sequences of characters; a JavaScript `null` or `undefined` is
 * `None` where the service can meet one.
 */
module JsStrings {

  datatype Option<+T> = None | Some(value: T)

  // ---------------------------------------------------------------------------
  // substring

  /** Clamps an index argument into [0, n], as `String.prototype.substring` does. */
  function Clamp(i: int, n: nat): (r: nat)
    ensures r <= n
    ensures 0 <= i <= n ==> r == i
    ensures i < 0 ==> r == 0
    ensures n < i ==> r == n
  {
    if i < 0 then 0 else if i > n then n else i
  }

  /** `s.substring(start, end)`: both ends clamped to [0, |s|], and swapped when start > end. */
  function Substring(s: string, start: int, end: int): (r: string)
    ensures |r| <= |s|
    ensures 0 <= start <= end <= |s| ==> r == s[start..end]
  {
    var a := Clamp(start, |s|);
    var b := Clamp(end, |s|);
    if a <= b then s[a..b] else s[b..a]
  }

  /** `s.substring(start)`. */
  function SubstringFrom(s: string, start: int): (r: string)
    ensures 0 <= start <= |s| ==> r == s[start..]
    ensures start < 0 ==> r == s
    ensures |s| < start ==> r == []
  {
    Substring(s, start, |s|)
  }

  // ---------------------------------------------------------------------------
  // searching

  /** pat occurs in s at position j. */
  predicate MatchAt(s: string, pat: string, j: int)
  {
    0 <= j && j + |pat| <= |s| && s[j..j + |pat|] == pat
  }

  function IndexOfFrom(s: string, pat: string, from: nat): (r: int)
    requires from <= |s| + 1
    ensures r == -1 || (from <= r && MatchAt(s, pat, r))
    ensures r != -1 ==> forall j :: from <= j < r ==> !MatchAt(s, pat, j)
    ensures r == -1 ==> forall j :: from <= j ==> !MatchAt(s, pat, j)
    decreases |s| + 1 - from
  {
    if from + |pat| > |s| then -1
    else if s[from..from + |pat|] == pat then from
    else IndexOfFrom(s, pat, from + 1)
  }

  /** `s.indexOf(pat)`: the first position where pat occurs, or -1. */
  function IndexOf(s: string, pat: string): (r: int)
    ensures r == -1 || MatchAt(s, pat, r)
    ensures r != -1 ==> forall j :: 0 <= j < r ==> !MatchAt(s, pat, j)
    ensures r == -1 ==> forall j :: !MatchAt(s, pat, j)
  {
    IndexOfFrom(s, pat, 0)
  }

  /** `s.indexOf(pat) > -1` (equivalently `!== -1`). */
  predicate Contains(s: string, pat: string)
  {
    IndexOf(s, pat) >= 0
  }

  /** `s.indexOf(c)` for a single character. */
  function FirstIndexOf(s: string, c: char): (r: int)
    ensures r == -1 <==> c !in s
    ensures r != -1 ==> 0 <= r < |s| && s[r] == c && c !in s[..r]
  {
    if s == [] then -1
    else if s[0] == c then 0
    else
      var i := FirstIndexOf(s[1..], c);
      assert s == [s[0]] + s[1..];
      assert i != -1 ==> s[..i + 1] == [s[0]] + s[1..][..i];
      if i == -1 then -1 else i + 1
  }

  lemma FirstIndexOfAt(a: string, c: char, b: string)
    requires c !in a
    ensures FirstIndexOf(a + [c] + b, c) == |a|
  {
    var s := a + [c] + b;
    assert s[|a|] == c;
    assert s[..|a|] == a;
  }

  /** The first match of pat is at k when pat occurs at k and nowhere before. */
  lemma IndexOfAt(s: string, pat: string, k: int)
    requires MatchAt(s, pat, k)
    requires forall j :: 0 <= j < k ==> !MatchAt(s, pat, j)
    ensures IndexOf(s, pat) == k
  {
  }

  /** `s.lastIndexOf(c)`: the last position of c, or -1. */
  function LastIndexOf(s: string, c: char): (r: int)
    ensures r == -1 <==> c !in s
    ensures r != -1 ==> 0 <= r < |s| && s[r] == c && c !in s[r + 1..]
    decreases |s|
  {
    if s == [] then -1
    else if s[|s| - 1] == c then |s| - 1
    else
      var i := LastIndexOf(s[..|s| - 1], c);
      assert s == s[..|s| - 1] + [s[|s| - 1]];
      assert i != -1 ==> s[i + 1..] == s[..|s| - 1][i + 1..] + [s[|s| - 1]];
      i
  }

  lemma LastIndexOfAt(a: string, c: char, b: string)
    requires c !in b
    ensures LastIndexOf(a + [c] + b, c) == |a|
  {
    var s := a + [c] + b;
    var r := LastIndexOf(s, c);
    assert s[|a|] == c;
  }

  /** The number of occurrences of c in s. */
  function CountChar(s: string, c: char): (r: nat)
    ensures r <= |s|
    ensures r == 0 <==> c !in s
  {
    if s == [] then 0 else (if s[0] == c then 1 else 0) + CountChar(s[1..], c)
  }

  lemma {:induction false} CountCharConcat(a: string, b: string, c: char)
    ensures CountChar(a + b, c) == CountChar(a, c) + CountChar(b, c)
  {
    if a != [] {
      assert (a + b)[1..] == a[1..] + b;
      CountCharConcat(a[1..], b, c);
    } else {
      assert a + b == b;
    }
  }

  // ---------------------------------------------------------------------------
  // split and join

  /** `s.split(c)` for a one-character separator: never empty, pieces free of c. */
  function Split(s: string, c: char): (r: seq<string>)
    ensures |r| == CountChar(s, c) + 1
    ensures forall i :: 0 <= i < |r| ==> c !in r[i]
    decreases |s|
  {
    var i := FirstIndexOf(s, c);
    if i < 0 then [s]
    else
      assert s == s[..i] + [c] + s[i + 1..];
      CountCharConcat(s[..i] + [c], s[i + 1..], c);
      CountCharConcat(s[..i], [c], c);
      [s[..i]] + Split(s[i + 1..], c)
  }

  /** The strings of `parts` one after the other, with nothing between them. */
  function Concat(parts: seq<string>): string
  {
    if parts == [] then "" else Concat(parts[..|parts| - 1]) + parts[|parts| - 1]
  }

  lemma ConcatStep(parts: seq<string>)
    requires parts != []
    ensures Concat(parts) == Concat(parts[..|parts| - 1]) + parts[|parts| - 1]
  {
  }

  /** `parts.join(sep)`. */
  function Join(parts: seq<string>, sep: string): string
  {
    if |parts| == 0 then ""
    else if |parts| == 1 then parts[0]
    else parts[0] + sep + Join(parts[1..], sep)
  }

  lemma {:induction false} SplitPrefix(a: string, c: char, b: string)
    requires c !in a
    ensures Split(a + [c] + b, c) == [a] + Split(b, c)
  {
    var s := a + [c] + b;
    var i := FirstIndexOf(s, c);
    assert s[|a|] == c;
    assert s[..|a|] == a && s[|a| + 1..] == b;
  }

  /** Splitting at a separator occurrence splits the two sides independently. */
  lemma {:induction false} SplitSep(a: string, c: char, b: string)
    ensures Split(a + [c] + b, c) == Split(a, c) + Split(b, c)
    decreases |a|
  {
    var i := FirstIndexOf(a, c);
    if i < 0 {
      SplitPrefix(a, c, b);
      SplitNone(a, c);
    } else {
      var a1 := a[..i];
      var a2 := a[i + 1..];
      SplitFirstPiece(a, c, i);
      SplitFirstPieceThen(a, c, i, b);
      SplitSep(a2, c, b);
      ConcatAssoc([a1], Split(a2, c), Split(b, c));
    }
  }

  lemma ConcatAssoc(x: seq<string>, y: seq<string>, z: seq<string>)
    ensures x + (y + z) == x + y + z
  {
  }

  /** The piece before the first separator of `a` comes first. */
  lemma SplitFirstPiece(a: string, c: char, i: int)
    requires 0 <= i < |a| && a[i] == c && c !in a[..i]
    ensures Split(a, c) == [a[..i]] + Split(a[i + 1..], c)
  {
    assert a == a[..i] + [c] + a[i + 1..];
    SplitPrefix(a[..i], c, a[i + 1..]);
  }

  /** ... whatever follows `a`. */
  lemma SplitFirstPieceThen(a: string, c: char, i: int, b: string)
    requires 0 <= i < |a| && a[i] == c && c !in a[..i]
    ensures Split(a + [c] + b, c) == [a[..i]] + Split(a[i + 1..] + [c] + b, c)
  {
    assert a + [c] + b == a[..i] + [c] + (a[i + 1..] + [c] + b);
    SplitPrefix(a[..i], c, a[i + 1..] + [c] + b);
  }

  lemma SplitNone(a: string, c: char)
    requires c !in a
    ensures Split(a, c) == [a]
  {
  }

  /** Joining pieces that do not contain c and splitting again gives the pieces back. */
  lemma {:induction false} SplitJoin(parts: seq<string>, c: char)
    requires |parts| >= 1
    requires forall i :: 0 <= i < |parts| ==> c !in parts[i]
    ensures Split(Join(parts, [c]), c) == parts
  {
    if |parts| == 1 {
      SplitNone(parts[0], c);
    } else {
      SplitJoin(parts[1..], c);
      SplitPrefix(parts[0], c, Join(parts[1..], [c]));
      assert parts == [parts[0]] + parts[1..];
    }
  }

  /** Splitting and joining again gives the string back. */
  lemma {:induction false} JoinSplit(s: string, c: char)
    ensures Join(Split(s, c), [c]) == s
    decreases |s|
  {
    var i := FirstIndexOf(s, c);
    if i >= 0 {
      assert s == s[..i] + [c] + s[i + 1..];
      JoinSplit(s[i + 1..], c);
      var rest := Split(s[i + 1..], c);
      assert Split(s, c) == [s[..i]] + rest;
      assert Split(s, c)[1..] == rest;
    }
  }

  lemma JoinAppend(parts: seq<string>, last: string, sep: string)
    requires |parts| >= 1
    ensures Join(parts + [last], sep) == Join(parts, sep) + sep + last
    decreases |parts|
  {
    if |parts| == 1 {
      assert parts + [last] == [parts[0], last];
    } else {
      assert (parts + [last])[1..] == parts[1..] + [last];
      JoinAppend(parts[1..], last, sep);
    }
  }

  lemma JoinConcat(xs: seq<string>, ys: seq<string>, sep: string)
    requires |xs| >= 1 && |ys| >= 1
    ensures Join(xs + ys, sep) == Join(xs, sep) + sep + Join(ys, sep)
    decreases |xs|
  {
    if |xs| == 1 {
      assert xs + ys == [xs[0]] + ys;
      assert (xs + ys)[1..] == ys;
    } else {
      assert (xs + ys)[1..] == xs[1..] + ys;
      JoinConcat(xs[1..], ys, sep);
    }
  }

  /** The text before the first occurrence of pat: `s.split(pat)[0]`. */
  function BeforeFirst(s: string, pat: string): (r: string)
    requires pat != []
    ensures IndexOf(s, pat) == -1 ==> r == s
    ensures IndexOf(s, pat) >= 0 ==> r == s[..IndexOf(s, pat)]
  {
    var i := IndexOf(s, pat);
    if i < 0 then s else s[..i]
  }

  // ---------------------------------------------------------------------------
  // decimal numbers

  predicate IsDigit(ch: char)
  {
    '0' <= ch <= '9'
  }

  predicate AllDigits(s: string)
  {
    forall i :: 0 <= i < |s| ==> IsDigit(s[i])
  }

  function DigitValue(ch: char): (d: nat)
    requires IsDigit(ch)
    ensures d < 10
  {
    (ch as int - '0' as int) as nat
  }

  function DigitChar(d: nat): (ch: char)
    requires d < 10
    ensures IsDigit(ch) && DigitValue(ch) == d
  {
    ('0' as int + d) as char
  }

  /** The decimal value of a string of digits. */
  function DigitsValue(s: string): nat
    requires AllDigits(s)
    decreases |s|
  {
    if s == [] then 0 else DigitsValue(s[..|s| - 1]) * 10 + DigitValue(s[|s| - 1])
  }

  /** `String(n)` for a non-negative integer: its shortest decimal rendering. */
  function NatToString(n: nat): (r: string)
    ensures |r| >= 1 && AllDigits(r)
    ensures |r| > 1 ==> r[0] != '0'
    ensures r[0] == '0' ==> n == 0
    decreases n
  {
    if n < 10 then [DigitChar(n)] else NatToString(n / 10) + [DigitChar(n % 10)]
  }

  /** `String(i)` for any integer: a minus sign before the magnitude of a negative one. */
  function IntToString(i: int): string
  {
    if i < 0 then "-" + NatToString(-i) else NatToString(i)
  }

  lemma {:induction false} NatToStringValue(n: nat)
    ensures DigitsValue(NatToString(n)) == n
    decreases n
  {
    if n >= 10 {
      NatToStringValue(n / 10);
      var s := NatToString(n);
      assert s[..|s| - 1] == NatToString(n / 10);
    }
  }

  /** The length of the longest prefix of s made of digits. */
  function LeadingDigits(s: string): (k: nat)
    ensures k <= |s| && AllDigits(s[..k])
    ensures k < |s| ==> !IsDigit(s[k])
    decreases |s|
  {
    if s == [] || !IsDigit(s[0]) then 0
    else
      var k := 1 + LeadingDigits(s[1..]);
      assert s[..k] == [s[0]] + s[1..][..k - 1];
      k
  }

  /** The white space and line terminators JavaScript skips before a number. */
  predicate IsJsWhitespace(ch: char)
  {
    ch == '\t' || ch == '\n' || ch == '\U{000B}' || ch == '\U{000C}' || ch == '\r' || ch == ' '
    || ch == '\U{00A0}' || ch == '\U{1680}' || ('\U{2000}' <= ch <= '\U{200A}')
    || ch == '\U{2028}' || ch == '\U{2029}' || ch == '\U{202F}' || ch == '\U{205F}'
    || ch == '\U{3000}' || ch == '\U{FEFF}'
  }

  /** The string without its leading white space: a suffix of s, all of whose cut prefix is white space. */
  function TrimStart(s: string): (r: string)
    ensures |r| <= |s| && r == s[|s| - |r|..]
    ensures forall i :: 0 <= i < |s| - |r| ==> IsJsWhitespace(s[i])
    ensures r == [] || !IsJsWhitespace(r[0])
    decreases |s|
  {
    if s != [] && IsJsWhitespace(s[0]) then
      var r := TrimStart(s[1..]);
      assert forall i :: 1 <= i < |s| ==> s[i] == s[1..][i - 1];
      r
    else s
  }

  /** White space in front of a string that does not start with white space is dropped. */
  lemma {:induction false} TrimStartAfter(ws: string, x: string)
    requires forall i :: 0 <= i < |ws| ==> IsJsWhitespace(ws[i])
    requires x == [] || !IsJsWhitespace(x[0])
    ensures TrimStart(ws + x) == x
    decreases |ws|
  {
    if ws == [] {
      assert ws + x == x;
    } else {
      assert (ws + x)[0] == ws[0];
      assert (ws + x)[1..] == ws[1..] + x;
      TrimStartAfter(ws[1..], x);
    }
  }

  predicate IsHexDigit(ch: char)
  {
    IsDigit(ch) || 'a' <= ch <= 'f' || 'A' <= ch <= 'F'
  }

  function HexDigitValue(ch: char): (d: nat)
    requires IsHexDigit(ch)
    ensures d < 16
  {
    if IsDigit(ch) then DigitValue(ch)
    else if 'a' <= ch <= 'f' then (ch as int - 'a' as int + 10) as nat
    else (ch as int - 'A' as int + 10) as nat
  }

  /** The value of a string of hexadecimal digits. */
  function HexValue(s: string): nat
    requires forall i :: 0 <= i < |s| ==> IsHexDigit(s[i])
    decreases |s|
  {
    if s == [] then 0 else HexValue(s[..|s| - 1]) * 16 + HexDigitValue(s[|s| - 1])
  }

  /** The length of the longest prefix of s made of hexadecimal digits. */
  function LeadingHexDigits(s: string): (k: nat)
    ensures k <= |s| && forall i :: 0 <= i < k ==> IsHexDigit(s[i])
    ensures k < |s| ==> !IsHexDigit(s[k])
    decreases |s|
  {
    if s == [] || !IsHexDigit(s[0]) then 0
    else
      var k := 1 + LeadingHexDigits(s[1..]);
      assert forall i :: 1 <= i < k ==> s[i] == s[1..][i - 1];
      k
  }

  /** `0x` or `0X`, which makes `parseInt` without a radix read hexadecimal digits. */
  predicate HasHexPrefix(u: string)
  {
    |u| >= 2 && u[0] == '0' && (u[1] == 'x' || u[1] == 'X')
  }

  function Signed(neg: bool, v: nat): int
  {
    var w: int := v;
    if neg then -w else w
  }

  /** The text of a number once white space and sign are gone. */
  function Unsigned(s: string): string
  {
    var t := TrimStart(s);
    if |t| > 0 && (t[0] == '-' || t[0] == '+') then t[1..] else t
  }

  /**
   * `parseInt(s)` with no radix: leading white space is skipped and an
   * optional sign read; after `0x` or `0X` the longest run of hexadecimal
   * digits is read, otherwise the longest run of decimal digits; NaN (None)
   * when that run is empty.
   */
  function ParseInt(s: string): (r: Option<int>)
    ensures TrimStart(s) == [] ==> r.None?
    ensures r.Some? && r.value < 0 ==> TrimStart(s)[0] == '-'
    ensures !HasHexPrefix(Unsigned(s)) ==> (r.None? <==> LeadingDigits(Unsigned(s)) == 0)
    ensures HasHexPrefix(Unsigned(s)) ==> (r.None? <==> LeadingHexDigits(Unsigned(s)[2..]) == 0)
  {
    var t := TrimStart(s);
    var neg := |t| > 0 && t[0] == '-';
    var u := Unsigned(s);
    if HasHexPrefix(u) then
      var h := u[2..];
      var k := LeadingHexDigits(h);
      if k == 0 then None else Some(Signed(neg, HexValue(h[..k])))
    else
      var k := LeadingDigits(u);
      if k == 0 then None else Some(Signed(neg, DigitsValue(u[..k])))
  }

  /** White space before the number changes nothing. */
  lemma ParseIntSkipsWhitespace(ws: string, x: string)
    requires forall i :: 0 <= i < |ws| ==> IsJsWhitespace(ws[i])
    requires x == [] || !IsJsWhitespace(x[0])
    ensures ParseInt(ws + x) == ParseInt(x)
  {
    TrimStartAfter(ws, x);
    TrimStartAfter([], x);
    assert [] + x == x;
    ParseIntOfTrimmed(ws + x, x);
  }

  /** parseInt looks at its argument only from the first non-white-space character on. */
  lemma ParseIntOfTrimmed(s: string, t: string)
    requires TrimStart(s) == TrimStart(t)
    ensures ParseInt(s) == ParseInt(t)
  {
    assert Unsigned(s) == Unsigned(t);
  }

  /** Without a radix, `0x1F` is read as hexadecimal. */
  lemma ParseIntHexExample()
    ensures ParseInt("0x1F") == Some(31)
  {
    assert TrimStart("0x1F") == "0x1F";
    var h := "1F";
    assert Unsigned("0x1F")[2..] == h;
    assert LeadingHexDigits("F") == 1;
    assert LeadingHexDigits(h) == 2;
    assert h[..2] == h && h[..1] == "1";
    assert HexValue(h) == 31;
  }

  /** `parseInt` reads back a rendered number, whatever non-digit text follows it. */
  lemma ParseIntOfNatToString(n: nat, rest: string)
    requires rest == [] || !IsDigit(rest[0])
    requires n != 0 || rest == [] || (rest[0] != 'x' && rest[0] != 'X')
    ensures ParseInt(NatToString(n) + rest) == Some(n)
  {
    var s := NatToString(n);
    var t := s + rest;
    RenderedUnsigned(n, rest);
    LeadingDigitsPrefix(s, rest);
    assert t[..|s|] == s;
    NatToStringValue(n);
  }

  /** A rendered number has no white space, sign or hexadecimal prefix in front. */
  lemma RenderedUnsigned(n: nat, rest: string)
    requires n != 0 || rest == [] || (rest[0] != 'x' && rest[0] != 'X')
    ensures Unsigned(NatToString(n) + rest) == NatToString(n) + rest
    ensures !HasHexPrefix(NatToString(n) + rest)
  {
    var s := NatToString(n);
    var t := s + rest;
    assert t[0] == s[0] && IsDigit(t[0]);
    assert !IsJsWhitespace(t[0]);
    assert TrimStart(t) == t;
    assert Unsigned(t) == t;
    if |t| >= 2 && t[0] == '0' {
      assert |s| == 1 && n == 0;
      assert t[1] == rest[0];
    }
  }

  lemma {:induction false} LeadingDigitsPrefix(s: string, rest: string)
    requires AllDigits(s)
    requires rest == [] || !IsDigit(rest[0])
    ensures LeadingDigits(s + rest) == |s|
    decreases |s|
  {
    if s != [] {
      assert (s + rest)[1..] == s[1..] + rest;
      LeadingDigitsPrefix(s[1..], rest);
    } else {
      assert s + rest == rest;
    }
  }

  /** A component read as a plain decimal number: one or more digits and nothing else. */
  function DecimalNumber(s: string): (r: Option<nat>)
    ensures r.Some? <==> |s| > 0 && AllDigits(s)
  {
    if |s| > 0 && AllDigits(s) then Some(DigitsValue(s)) else None
  }

  lemma DecimalNumberOfNatToString(n: nat)
    ensures DecimalNumber(NatToString(n)) == Some(n)
  {
    NatToStringValue(n);
  }
}
