/** The parts of .NET string handling that the core relies on: char.IsWhiteSpace,
    Trim/TrimStart/TrimEnd, ordinal StartsWith, ordinal-ignore-case comparison
    (ASCII letters only), Split on a separator, string.Join, ReplaceLineEndings
    and the decimal formatting of non-negative integers. */
module Text {
  import opened Wrappers
  import opened Seqs

  /** Environment.NewLine, fixed to a line feed. */
  const NewLine: string := "\n"

  /** char.IsWhiteSpace: the Unicode space separators plus U+0009..U+000D,
      U+0085, U+2028 and U+2029. */
  predicate IsWhiteSpace(c: char) {
    ('\t' <= c <= '\r') || c == ' ' || c == '\U{85}' || c == '\U{a0}' || c == '\U{1680}'
    || ('\U{2000}' <= c <= '\U{200a}') || c == '\U{2028}' || c == '\U{2029}'
    || c == '\U{202f}' || c == '\U{205f}' || c == '\U{3000}'
  }

  /** string.IsNullOrWhiteSpace on a string that is not null. */
  predicate IsBlank(s: string) {
    forall i :: 0 <= i < |s| ==> IsWhiteSpace(s[i])
  }

  /** Neither end of the string is white space. */
  predicate IsTrimmed(s: string) {
    s == [] || (!IsWhiteSpace(s[0]) && !IsWhiteSpace(s[|s| - 1]))
  }

  function TrimStart(s: string): (r: string)
    ensures |r| <= |s| && r == s[|s| - |r|..]
    ensures IsBlank(s[..|s| - |r|])
    ensures r != [] ==> !IsWhiteSpace(r[0])
  {
    if s != [] && IsWhiteSpace(s[0]) then
      var t := TrimStart(s[1..]);
      assert s[..|s| - |t|] == [s[0]] + s[1..][..|s| - 1 - |t|];
      t
    else s
  }

  function TrimEnd(s: string): (r: string)
    ensures |r| <= |s| && r == s[..|r|]
    ensures IsBlank(s[|r|..])
    ensures r != [] ==> !IsWhiteSpace(r[|r| - 1])
  {
    if s != [] && IsWhiteSpace(s[|s| - 1]) then
      var t := TrimEnd(s[..|s| - 1]);
      assert s[|t|..] == s[..|s| - 1][|t|..] + [s[|s| - 1]];
      t
    else s
  }

  /** string.Trim: the string with its leading and trailing white space removed. */
  function Trim(s: string): (r: string)
    ensures IsTrimmed(r)
    ensures r == [] <==> IsBlank(s)
  {
    var t := TrimStart(s);
    var r := TrimEnd(t);
    assert r == [] ==> IsBlank(s) by {
      if r == [] {
        assert IsBlank(t) by { assert t[|r|..] == t; }
        assert t == [];
        assert s[..|s|] == s;
      }
    }
    r
  }

  /** What Trim keeps is one contiguous run of the input, and everything
      outside that run is white space. */
  lemma TrimSlice(s: string)
    ensures exists i, j :: 0 <= i <= j <= |s| && Trim(s) == s[i..j] && IsBlank(s[..i]) && IsBlank(s[j..])
  {
    var t := TrimStart(s);
    var r := TrimEnd(t);
    var i := |s| - |t|;
    assert t == s[i..];
    assert t[..|r|] == s[i..i + |r|];
    assert t[|r|..] == s[i + |r|..];
    assert Trim(s) == s[i..i + |r|] && IsBlank(s[..i]) && IsBlank(s[i + |r|..]);
  }

  lemma TrimEndOfTrimmed(s: string)
    requires s != [] ==> !IsWhiteSpace(s[|s| - 1])
    ensures TrimEnd(s) == s
  {
  }

  /** TrimEnd cuts right after the last character that is not white space. */
  lemma TrimEndAt(s: string, n: nat)
    requires 0 < n <= |s| && !IsWhiteSpace(s[n - 1]) && IsBlank(s[n..])
    ensures TrimEnd(s) == s[..n]
  {
  }

  lemma TrimOfTrimmed(s: string)
    requires IsTrimmed(s)
    ensures Trim(s) == s
  {
  }

  /** A space in front of a trimmed string is trimmed away. */
  lemma TrimAfterSpace(s: string)
    requires s != [] && IsTrimmed(s)
    ensures Trim(" " + s) == s
  {
    assert (" " + s)[1..] == s;
    TrimOfTrimmed(s);
  }

  function ToUpperChar(c: char): char {
    if 'a' <= c <= 'z' then (c as int - 32) as char else c
  }

  predicate IsLowerAscii(c: char) {
    'a' <= c <= 'z'
  }

  /** ToUpperInvariant, restricted to the ASCII letters: no lower-case ASCII
      letter is left, each becomes the upper-case letter at the same place in
      the alphabet, and every other character is kept. */
  function ToUpperAscii(s: string): (r: string)
    ensures |r| == |s|
    ensures forall i :: 0 <= i < |s| ==> (IsWhiteSpace(r[i]) <==> IsWhiteSpace(s[i]))
    ensures forall i :: 0 <= i < |s| ==> !IsLowerAscii(r[i])
    ensures forall i :: 0 <= i < |s| ==>
      if IsLowerAscii(s[i]) then 'A' <= r[i] <= 'Z' && r[i] as int - 'A' as int == s[i] as int - 'a' as int
      else r[i] == s[i]
  {
    seq(|s|, i requires 0 <= i < |s| => ToUpperChar(s[i]))
  }

  /** A string without lower-case ASCII letters is its own upper case. */
  lemma ToUpperOfUpper(s: string)
    requires forall i :: 0 <= i < |s| ==> !('a' <= s[i] <= 'z')
    ensures ToUpperAscii(s) == s
  {
  }

  /** string.Equals(a, b, StringComparison.OrdinalIgnoreCase), ASCII letters only. */
  predicate EqualsIgnoreCase(a: string, b: string) {
    ToUpperAscii(a) == ToUpperAscii(b)
  }

  /** Ordinal StartsWith. */
  predicate StartsWith(s: string, prefix: string) {
    |prefix| <= |s| && s[..|prefix|] == prefix
  }

  predicate OccursAt(s: string, pat: string, i: int) {
    0 <= i && i + |pat| <= |s| && s[i..i + |pat|] == pat
  }

  lemma OccursShift(s: string, pat: string)
    requires s != []
    ensures forall j :: 1 <= j ==> (OccursAt(s, pat, j) <==> OccursAt(s[1..], pat, j - 1))
  {
    forall j | 1 <= j ensures OccursAt(s, pat, j) <==> OccursAt(s[1..], pat, j - 1) {
      if j + |pat| <= |s| {
        assert s[1..][j - 1..j - 1 + |pat|] == s[j..j + |pat|];
      }
    }
  }

  /** string.IndexOf (ordinal): the first position at which pat occurs. */
  function IndexOf(s: string, pat: string): (r: Option<nat>)
    requires |pat| > 0
    ensures r.Some? ==> OccursAt(s, pat, r.value) && forall j :: 0 <= j < r.value ==> !OccursAt(s, pat, j)
    ensures r.None? ==> forall j :: !OccursAt(s, pat, j)
    decreases |s|
  {
    if |s| < |pat| then None
    else if s[..|pat|] == pat then Some(0)
    else
      assert !OccursAt(s, pat, 0) by { assert s[0..|pat|] == s[..|pat|]; }
      OccursShift(s, pat);
      match IndexOf(s[1..], pat)
      case None => None
      case Some(k) => Some(k + 1)
  }

  /** string.Join. */
  function Join(parts: seq<string>, sep: string): string {
    if |parts| == 0 then ""
    else if |parts| == 1 then parts[0]
    else parts[0] + sep + Join(parts[1..], sep)
  }

  /** Join, seen from the end: one more part adds the separator and the part. */
  lemma {:induction false} JoinSnoc(parts: seq<string>, x: string, sep: string)
    ensures Join(parts + [x], sep) == if parts == [] then x else Join(parts, sep) + sep + x
    decreases |parts|
  {
    if |parts| >= 2 {
      assert (parts + [x])[1..] == parts[1..] + [x];
      JoinSnoc(parts[1..], x, sep);
    }
  }

  /** A piece with no occurrence of a one-character pattern does not hold that
      character. */
  lemma AbsentChar(s: string, c: char)
    requires IndexOf(s, [c]).None?
    ensures forall i :: 0 <= i < |s| ==> s[i] != c
  {
    forall i | 0 <= i < |s| ensures s[i] != c {
      assert s[i..i + 1] == [s[i]];
      assert !OccursAt(s, [c], i);
    }
  }

  lemma OccursInPrefix(s: string, pat: string, i: nat, j: int)
    requires i <= |s| && OccursAt(s[..i], pat, j)
    ensures OccursAt(s, pat, j)
  {
    assert s[..i][j..j + |pat|] == s[j..j + |pat|];
  }

  /** string.Split(sep) without options: the pieces between the occurrences of
      sep, found from left to right. Joining them again with sep gives back the
      string, and no piece contains sep. */
  function Split(s: string, sep: string): (r: seq<string>)
    requires |sep| > 0
    ensures |r| >= 1
    ensures Join(r, sep) == s
    ensures forall k :: 0 <= k < |r| ==> IndexOf(r[k], sep).None?
    ensures |r| > 1 ==> IndexOf(s, sep) == Some(|r[0]|)
    decreases |s|
  {
    match IndexOf(s, sep)
    case None => [s]
    case Some(i) =>
      var head := s[..i];
      var rest := Split(s[i + |sep|..], sep);
      assert IndexOf(head, sep).None? by {
        if IndexOf(head, sep).Some? {
          OccursInPrefix(s, sep, i, IndexOf(head, sep).value);
        }
      }
      assert s == head + sep + s[i + |sep|..];
      assert ([head] + rest)[1..] == rest;
      [head] + rest
  }

  /** StringSplitOptions.RemoveEmptyEntries: drops the empty pieces, keeping order. */
  function RemoveEmpty(parts: seq<string>): (r: seq<string>)
    ensures |r| <= |parts|
    ensures forall k :: 0 <= k < |r| ==> r[k] != "" && r[k] in parts
    ensures forall k :: 0 <= k < |parts| ==> parts[k] != "" ==> parts[k] in r
    ensures (forall k :: 0 <= k < |parts| ==> parts[k] != "") ==> r == parts
  {
    if parts == [] then []
    else (if parts[0] == "" then [] else [parts[0]]) + RemoveEmpty(parts[1..])
  }

  /** RemoveEmpty works piece by piece: on two runs of pieces it keeps the
      non-empty pieces of the first, then those of the second. */
  lemma {:induction false} RemoveEmptyAppend(a: seq<string>, b: seq<string>)
    ensures RemoveEmpty(a + b) == RemoveEmpty(a) + RemoveEmpty(b)
    decreases |a|
  {
    if a == [] {
      assert a + b == b;
    } else {
      assert (a + b)[0] == a[0];
      assert (a + b)[1..] == a[1..] + b;
      RemoveEmptyAppend(a[1..], b);
    }
  }

  /** A single piece is kept exactly when it is not empty. */
  lemma RemoveEmptyOne(x: string)
    ensures RemoveEmpty([x]) == if x == "" then [] else [x]
  {
    assert [x][1..] == [];
  }

  lemma IndexOfFirstChar(x: string, c: char, y: string)
    requires c !in x
    ensures IndexOf(x + [c] + y, [c]) == Some(|x|)
  {
    var s := x + [c] + y;
    assert s[|x|..|x| + 1] == [c];
    assert OccursAt(s, [c], |x|);
    forall j | 0 <= j < |x| ensures !OccursAt(s, [c], j) {
      assert s[j..j + 1] == [x[j]];
      assert x[j] in x;
    }
  }

  /** IndexOf with a one-character pattern finds the first occurrence of
      that character. */
  lemma IndexOfChar(s: string, c: char)
    ensures IndexOf(s, [c]).None? <==> c !in s
    ensures IndexOf(s, [c]).Some? ==>
      var i := IndexOf(s, [c]).value;
      i < |s| && s[i] == c && c !in s[..i]
  {
    forall j | 0 <= j < |s| ensures OccursAt(s, [c], j) <==> s[j] == c {
      assert s[j..j + 1] == [s[j]];
    }
    if IndexOf(s, [c]).Some? {
      var i := IndexOf(s, [c]).value;
      forall j | 0 <= j < i ensures s[..i][j] != c {
        assert !OccursAt(s, [c], j);
      }
    }
  }

  /** For a one-character separator that no piece contains, Split undoes Join. */
  lemma {:induction false} SplitJoinChar(parts: seq<string>, c: char)
    requires |parts| >= 1
    requires forall k :: 0 <= k < |parts| ==> c !in parts[k]
    ensures Split(Join(parts, [c]), [c]) == parts
  {
    if |parts| == 1 {
    } else {
      var rest := Join(parts[1..], [c]);
      IndexOfFirstChar(parts[0], c, rest);
      SplitAtFirst(parts[0], [c], rest);
      SplitJoinChar(parts[1..], c);
      assert parts == [parts[0]] + parts[1..];
    }
  }

  /** Split cuts a text at the first occurrence of the separator and goes on
      with what follows it. */
  lemma SplitAtFirst(head: string, sep: string, rest: string)
    requires |sep| > 0 && IndexOf(head + sep + rest, sep) == Some(|head|)
    ensures Split(head + sep + rest, sep) == [head] + Split(rest, sep)
  {
    var s := head + sep + rest;
    assert s[..|head|] == head;
    assert s[|head| + |sep|..] == rest;
  }

  /** When sep first occurs in x + sep right after x, it first occurs there
      in x + sep + y as well, whatever y is. */
  lemma IndexOfFirstCut(x: string, sep: string, y: string)
    requires |sep| > 0 && IndexOf(x + sep, sep) == Some(|x|)
    ensures IndexOf(x + sep + y, sep) == Some(|x|)
  {
    var s := x + sep + y;
    assert s[|x|..|x| + |sep|] == sep;
    assert OccursAt(s, sep, |x|);
    forall j | 0 <= j < |x| ensures !OccursAt(s, sep, j) {
      assert !OccursAt(x + sep, sep, j);
      assert s[j..j + |sep|] == (x + sep)[j..j + |sep|];
    }
  }

  /** sep first occurs in part + sep right after the part. */
  predicate CutAtEnd(part: string, sep: string)
    requires |sep| > 0
  {
    IndexOf(part + sep, sep) == Some(|part|)
  }

  /** Split undoes Join when every part but the last is cut right at its end
      (sep first occurs in part + sep just after the part) and the last part
      does not hold sep. */
  lemma {:induction false} SplitOfJoin(parts: seq<string>, sep: string)
    requires |sep| > 0 && |parts| >= 1
    requires forall k :: 0 <= k < |parts| - 1 ==> CutAtEnd(parts[k], sep)
    requires IndexOf(parts[|parts| - 1], sep).None?
    ensures Split(Join(parts, sep), sep) == parts
    decreases |parts|
  {
    if |parts| > 1 {
      SplitOfJoinStep(parts, sep);
      CutPartsTail(parts, sep);
      SplitOfJoin(parts[1..], sep);
      assert parts == [parts[0]] + parts[1..];
    }
  }

  /** Split takes off the first part of a join whose first part is cut right
      at its end. */
  lemma SplitOfJoinStep(parts: seq<string>, sep: string)
    requires |sep| > 0 && |parts| > 1
    requires CutAtEnd(parts[0], sep)
    ensures Split(Join(parts, sep), sep) == [parts[0]] + Split(Join(parts[1..], sep), sep)
  {
    var rest := Join(parts[1..], sep);
    IndexOfFirstCut(parts[0], sep, rest);
    SplitAtFirst(parts[0], sep, rest);
  }

  /** The parts after the first still meet SplitOfJoin's conditions. */
  lemma CutPartsTail(parts: seq<string>, sep: string)
    requires |sep| > 0 && |parts| > 1
    requires forall k :: 0 <= k < |parts| - 1 ==> CutAtEnd(parts[k], sep)
    requires IndexOf(parts[|parts| - 1], sep).None?
    ensures var tail := parts[1..];
      (forall k :: 0 <= k < |tail| - 1 ==> CutAtEnd(tail[k], sep))
      && IndexOf(tail[|tail| - 1], sep).None?
  {
    var tail := parts[1..];
    forall k | 0 <= k < |tail| - 1 ensures CutAtEnd(tail[k], sep) {
      assert tail[k] == parts[k + 1];
    }
    assert tail[|tail| - 1] == parts[|parts| - 1];
  }

  /** A line terminator recognised by ReplaceLineEndings: CR, LF, FF, NEL, LS, PS
      (and CRLF as one terminator). */
  predicate IsLineBreakChar(c: char) {
    c == '\n' || c == '\r' || c == '\U{0c}' || c == '\U{85}' || c == '\U{2028}' || c == '\U{2029}'
  }

  /** Only the line feed is left as a line terminator. */
  predicate OnlyLineFeeds(s: string) {
    forall i :: 0 <= i < |s| ==> IsLineBreakChar(s[i]) ==> s[i] == '\n'
  }

  predicate NoLineBreaks(s: string) {
    forall i :: 0 <= i < |s| ==> !IsLineBreakChar(s[i])
  }

  lemma OnlyLineFeedsAppend(a: string, b: string)
    requires OnlyLineFeeds(a) && OnlyLineFeeds(b)
    ensures OnlyLineFeeds(a + b)
  {
    forall i | 0 <= i < |a + b| ensures IsLineBreakChar((a + b)[i]) ==> (a + b)[i] == '\n' {
      if i < |a| {
        assert (a + b)[i] == a[i];
      } else {
        assert (a + b)[i] == b[i - |a|];
      }
    }
  }

  /** Parts and a separator with only line feeds join to a text with only
      line feeds. */
  lemma {:induction false} OnlyLineFeedsJoin(parts: seq<string>, sep: string)
    requires OnlyLineFeeds(sep)
    requires forall k :: 0 <= k < |parts| ==> OnlyLineFeeds(parts[k])
    ensures OnlyLineFeeds(Join(parts, sep))
    decreases |parts|
  {
    if |parts| > 1 {
      OnlyLineFeedsJoin(parts[1..], sep);
      OnlyLineFeedsAppend(parts[0], sep);
      OnlyLineFeedsAppend(parts[0] + sep, Join(parts[1..], sep));
    }
  }

  /** string.ReplaceLineEndings("\n"). */
  function ReplaceLineEndings(s: string): (r: string)
    ensures OnlyLineFeeds(r)
    decreases |s|
  {
    if s == [] then []
    else if s[0] == '\r' && |s| > 1 && s[1] == '\n' then "\n" + ReplaceLineEndings(s[2..])
    else if IsLineBreakChar(s[0]) then "\n" + ReplaceLineEndings(s[1..])
    else [s[0]] + ReplaceLineEndings(s[1..])
  }

  lemma {:induction false} ReplaceLineEndingsKeepsLineFeeds(s: string)
    requires OnlyLineFeeds(s)
    ensures ReplaceLineEndings(s) == s
    decreases |s|
  {
    if s != [] {
      assert OnlyLineFeeds(s[1..]) by {
        forall i | 0 <= i < |s| - 1 ensures IsLineBreakChar(s[1..][i]) ==> s[1..][i] == '\n' {
          assert s[1..][i] == s[i + 1];
        }
      }
      ReplaceLineEndingsKeepsLineFeeds(s[1..]);
      assert s == [s[0]] + s[1..];
    }
  }

  /** No CR in s is directly followed by an LF. */
  predicate NoCrLf(s: string) {
    forall i :: 0 <= i < |s| - 1 ==> !(s[i] == '\r' && s[i + 1] == '\n')
  }

  /** Without CRLF pairs, normalising works character by character: each of
      CR, LF, FF, NEL, LS and PS becomes one LF, and every other character
      stays. */
  lemma {:induction false} ReplaceLineEndingsPointwise(s: string)
    requires NoCrLf(s)
    ensures |ReplaceLineEndings(s)| == |s|
    ensures forall i :: 0 <= i < |s| ==>
      ReplaceLineEndings(s)[i] == if IsLineBreakChar(s[i]) then '\n' else s[i]
    decreases |s|
  {
    if s != [] {
      var t := s[1..];
      assert NoCrLf(t) by {
        forall i | 0 <= i < |t| - 1 ensures !(t[i] == '\r' && t[i + 1] == '\n') {
          assert t[i] == s[i + 1] && t[i + 1] == s[i + 2];
        }
      }
      ReplaceLineEndingsPointwise(t);
      var head: string := if IsLineBreakChar(s[0]) then "\n" else [s[0]];
      assert ReplaceLineEndings(s) == head + ReplaceLineEndings(t);
      forall i | 0 <= i < |s|
        ensures ReplaceLineEndings(s)[i] == if IsLineBreakChar(s[i]) then '\n' else s[i]
      {
        if i > 0 {
          assert ReplaceLineEndings(s)[i] == ReplaceLineEndings(t)[i - 1];
          assert t[i - 1] == s[i];
        }
      }
    }
  }

  /** Normalising line endings twice is the same as doing it once. */
  lemma ReplaceLineEndingsIdempotent(s: string)
    ensures ReplaceLineEndings(ReplaceLineEndings(s)) == ReplaceLineEndings(s)
  {
    ReplaceLineEndingsKeepsLineFeeds(ReplaceLineEndings(s));
  }

  lemma {:induction false} ReplaceLineEndingsPlainPrefix(a: string, b: string)
    requires NoLineBreaks(a)
    ensures ReplaceLineEndings(a + b) == a + ReplaceLineEndings(b)
    decreases |a|
  {
    if a != [] {
      assert (a + b)[1..] == a[1..] + b;
      assert ReplaceLineEndings(a + b) == [a[0]] + ReplaceLineEndings((a + b)[1..]);
      assert NoLineBreaks(a[1..]) by {
        forall i | 0 <= i < |a| - 1 ensures !IsLineBreakChar(a[1..][i]) {
          assert a[1..][i] == a[i + 1];
        }
      }
      ReplaceLineEndingsPlainPrefix(a[1..], b);
      assert !IsLineBreakChar(a[0]);
      calc {
        ReplaceLineEndings(a + b);
        [a[0]] + ReplaceLineEndings(a[1..] + b);
        [a[0]] + (a[1..] + ReplaceLineEndings(b));
        { assert a == [a[0]] + a[1..]; }
        a + ReplaceLineEndings(b);
      }
    } else {
      assert a + b == b;
    }
  }

  /** Lines joined with CRLF or with LF normalise to the LF-joined text. */
  lemma {:induction false} ReplaceLineEndingsOfJoin(lines: seq<string>, terminator: string)
    requires terminator == "\r\n" || terminator == "\n"
    requires forall k :: 0 <= k < |lines| ==> NoLineBreaks(lines[k])
    ensures ReplaceLineEndings(Join(lines, terminator)) == Join(lines, "\n")
  {
    if |lines| == 0 {
    } else if |lines| == 1 {
      ReplaceLineEndingsPlainPrefix(lines[0], "");
      assert lines[0] + "" == lines[0];
    } else {
      var rest := Join(lines[1..], terminator);
      assert Join(lines, terminator) == lines[0] + (terminator + rest);
      ReplaceLineEndingsPlainPrefix(lines[0], terminator + rest);
      assert (terminator + rest)[|terminator|..] == rest;
      ReplaceLineEndingsOfJoin(lines[1..], terminator);
    }
  }

  predicate IsDigit(c: char) {
    '0' <= c <= '9'
  }

  predicate AllDigits(s: string) {
    forall i :: 0 <= i < |s| ==> IsDigit(s[i])
  }

  function DigitValue(c: char): nat
    requires IsDigit(c)
  {
    c as int - '0' as int
  }

  function DigitChar(d: nat): (c: char)
    requires d < 10
    ensures IsDigit(c) && DigitValue(c) == d
  {
    ('0' as int + d) as char
  }

  /** The number that a string of decimal digits denotes. */
  function DigitsValue(s: string): nat
    requires AllDigits(s)
  {
    if s == [] then 0 else 10 * DigitsValue(s[..|s| - 1]) + DigitValue(s[|s| - 1])
  }

  /** Int32.ToString() for a non-negative value: the shortest decimal numeral. */
  function ToDecimal(n: nat): (r: string)
    ensures |r| >= 1 && AllDigits(r)
    ensures DigitsValue(r) == n
    ensures |r| > 1 ==> r[0] != '0'
  {
    if n < 10 then [DigitChar(n)]
    else
      var p := ToDecimal(n / 10);
      var r := p + [DigitChar(n % 10)];
      assert r[..|r| - 1] == p;
      r
  }

  /** Reads an unsigned decimal numeral; no sign, no white space. */
  function ParseDecimal(s: string): (r: Option<nat>)
    ensures r.Some? <==> s != [] && AllDigits(s)
    ensures r.Some? ==> r.value == DigitsValue(s)
  {
    if s != [] && AllDigits(s) then Some(DigitsValue(s)) else None
  }

  /** new string(' ', n). */
  function Spaces(n: nat): (r: string)
    ensures |r| == n && forall i :: 0 <= i < n ==> r[i] == ' '
  {
    seq(n, _ => ' ')
  }

  // ---------------------------------------------------------- bullet lines

  const BulletPrefix: string := "- "

  /** One "- item" line per item. */
  function Bullets(items: seq<string>): (r: seq<string>)
    ensures |r| == |items|
    ensures forall i :: 0 <= i < |items| ==> r[i] == BulletPrefix + items[i]
  {
    seq(|items|, i requires 0 <= i < |items| => BulletPrefix + items[i])
  }

  lemma BulletsStep(items: seq<string>, i: nat)
    requires i < |items|
    ensures Bullets(items[..i + 1]) == Bullets(items[..i]) + [BulletPrefix + items[i]]
  {
    var a := Bullets(items[..i + 1]);
    var b := Bullets(items[..i]) + [BulletPrefix + items[i]];
    assert forall j :: 0 <= j < i + 1 ==> a[j] == b[j];
  }

  /** A line that does not start with '-' is not a bullet line. */
  lemma NotABullet(items: seq<string>, line: string)
    requires line == [] || line[0] != '-'
    ensures line !in Bullets(items)
  {
  }

  /** The foreach loop that adds one "- item" line per item. */
  method AppendBullets(lines: seq<string>, items: seq<string>) returns (r: seq<string>)
    ensures r == lines + Bullets(items)
  {
    r := lines;
    for i := 0 to |items|
      invariant r == lines + Bullets(items[..i])
    {
      BulletsStep(items, i);
      ConcatSnoc(lines, Bullets(items[..i]), BulletPrefix + items[i]);
      r := r + [BulletPrefix + items[i]];
    }
    FullSlice(items);
  }
}
