/** PresentationStyleLoader: a style file is a sequence of "key: #RRGGBB"
    lines; each line that names one of the six colours (ignoring case) and
    holds a valid colour replaces that colour, and the style of a
    presentation comes from the first of three candidate files that
    exists. */
module StyleLoader {
  import opened Wrappers
  import opened Seqs
  import opened Text
  import opened Paths
  import opened Style

  // ------------------------------------------------------------------ keys

  /** The six entries of the colour dictionary. */
  datatype StyleKey = Header1 | Header2 | NormalText | HyperlinkText | SelectorColor | SelectionColor

  /** The name of each entry in a style file. */
  function KeyName(k: StyleKey): string {
    match k
    case Header1 => "# Header"
    case Header2 => "## Header"
    case NormalText => "Normal Text"
    case HyperlinkText => "Hyperlink Text"
    case SelectorColor => "Selector Color"
    case SelectionColor => "Selection Color"
  }

  /** A dictionary lookup under StringComparer.OrdinalIgnoreCase. */
  function LookupKey(key: string): (r: Option<StyleKey>)
    ensures r.Some? ==> EqualsIgnoreCase(key, KeyName(r.value))
    ensures r.None? ==> forall k :: !EqualsIgnoreCase(key, KeyName(k))
  {
    if EqualsIgnoreCase(key, KeyName(Header1)) then Some(Header1)
    else if EqualsIgnoreCase(key, KeyName(Header2)) then Some(Header2)
    else if EqualsIgnoreCase(key, KeyName(NormalText)) then Some(NormalText)
    else if EqualsIgnoreCase(key, KeyName(HyperlinkText)) then Some(HyperlinkText)
    else if EqualsIgnoreCase(key, KeyName(SelectorColor)) then Some(SelectorColor)
    else if EqualsIgnoreCase(key, KeyName(SelectionColor)) then Some(SelectionColor)
    else None
  }

  /** No two names are equal ignoring case, so the dictionary has six
      entries. */
  lemma KeyNamesDistinct(k: StyleKey, j: StyleKey)
    requires EqualsIgnoreCase(KeyName(k), KeyName(j))
    ensures k == j
  {
    var u := ToUpperAscii(KeyName(k));
    var v := ToUpperAscii(KeyName(j));
    assert |u| == |KeyName(k)| && |v| == |KeyName(j)|;
    if k == HyperlinkText || k == SelectorColor {
      assert u[0] == ToUpperChar(KeyName(k)[0]);
      assert v[0] == ToUpperChar(KeyName(j)[0]);
    }
  }

  /** Any spelling of a name, whatever its case, finds that entry. */
  lemma LookupKeyName(key: string, k: StyleKey)
    requires EqualsIgnoreCase(key, KeyName(k))
    ensures LookupKey(key) == Some(k)
  {
    var r := LookupKey(key).value;
    KeyNamesDistinct(r, k);
  }

  // ------------------------------------------------------------ hex colours

  predicate IsHexDigit(c: char) {
    ('0' <= c <= '9') || ('a' <= c <= 'f') || ('A' <= c <= 'F')
  }

  function HexValue(c: char): (v: nat)
    requires IsHexDigit(c)
    ensures v < 16
  {
    if '0' <= c <= '9' then c as int - '0' as int
    else if 'a' <= c <= 'f' then c as int - 'a' as int + 10
    else c as int - 'A' as int + 10
  }

  /** The white space that NumberStyles.AllowLeadingWhite and
      AllowTrailingWhite skip: U+0009..U+000D and U+0020. */
  predicate IsNumberWhite(c: char) {
    ('\t' <= c <= '\r') || c == ' '
  }

  /** byte.TryParse(pair, NumberStyles.HexNumber) on two characters: two hex
      digits, or one hex digit after leading white space, or one hex digit
      before trailing white space or a trailing NUL. */
  function ParseHexPair(pair: string): (r: Option<byte>)
    requires |pair| == 2
    ensures IsHexDigit(pair[0]) && IsHexDigit(pair[1])
      ==> r == Some((16 * HexValue(pair[0]) + HexValue(pair[1])) as byte)
    ensures !IsHexDigit(pair[0]) && !IsHexDigit(pair[1]) ==> r.None?
  {
    if IsHexDigit(pair[0]) && IsHexDigit(pair[1]) then Some((16 * HexValue(pair[0]) + HexValue(pair[1])) as byte)
    else if IsNumberWhite(pair[0]) && IsHexDigit(pair[1]) then Some(HexValue(pair[1]) as byte)
    else if IsHexDigit(pair[0]) && (IsNumberWhite(pair[1]) || pair[1] == '\0') then Some(HexValue(pair[0]) as byte)
    else None
  }

  /** The part of TryParseHex after the trim: '#' and exactly six characters
      that form the byte pairs R, G and B. */
  function ParseHashColor(hex: string): (r: Option<RgbColor>)
    ensures r.Some? ==> |hex| == 7 && hex[0] == '#'
  {
    if hex == [] || hex[0] != '#' then None
    else
      var digits := hex[1..];
      if |digits| != 6 then None
      else
        match (ParseHexPair(digits[..2]), ParseHexPair(digits[2..4]), ParseHexPair(digits[4..6]))
        case (Some(r), Some(g), Some(b)) => Some(RgbColor(r, g, b))
        case _ => None
  }

  /** TryParseHex: the trimmed value, read by ParseHashColor. */
  function TryParseHex(value: string): (r: Option<RgbColor>)
    ensures r.Some? ==> |Trim(value)| == 7 && Trim(value)[0] == '#'
  {
    ParseHashColor(Trim(value))
  }

  /** TryParseHex accepts a value exactly when, trimmed, it is '#' and six
      characters that form three byte pairs, and then the colour's components
      are the values of those pairs. */
  lemma TryParseHexMeans(value: string)
    ensures var h := Trim(value);
      TryParseHex(value).Some? <==>
        (|h| == 7 && h[0] == '#'
         && ParseHexPair(h[1..3]).Some? && ParseHexPair(h[3..5]).Some? && ParseHexPair(h[5..7]).Some?)
    ensures var h := Trim(value);
      TryParseHex(value).Some? ==>
        TryParseHex(value).value == RgbColor(ParseHexPair(h[1..3]).value, ParseHexPair(h[3..5]).value, ParseHexPair(h[5..7]).value)
  {
    ParseHashColorMeans(Trim(value));
  }

  /** TryParseHexMeans for a value already trimmed. */
  lemma ParseHashColorMeans(hex: string)
    ensures ParseHashColor(hex).Some? <==>
      (|hex| == 7 && hex[0] == '#'
       && ParseHexPair(hex[1..3]).Some? && ParseHexPair(hex[3..5]).Some? && ParseHexPair(hex[5..7]).Some?)
    ensures ParseHashColor(hex).Some? ==>
      ParseHashColor(hex).value
        == RgbColor(ParseHexPair(hex[1..3]).value, ParseHexPair(hex[3..5]).value, ParseHexPair(hex[5..7]).value)
  {
    if |hex| == 7 && hex[0] == '#' {
      var digits := hex[1..];
      assert digits[..2] == hex[1..3] && digits[2..4] == hex[3..5] && digits[4..6] == hex[5..7];
    }
  }

  /** The upper-case hex digit of a value below 16. */
  function HexDigit(v: nat): (c: char)
    requires v < 16
    ensures IsHexDigit(c) && HexValue(c) == v
  {
    if v < 10 then ('0' as int + v) as char else ('A' as int + v - 10) as char
  }

  function HexByte(b: byte): (s: string)
    ensures |s| == 2
  {
    [HexDigit(b as nat / 16), HexDigit(b as nat % 16)]
  }

  /** A colour written as "#RRGGBB". */
  function FormatHex(c: RgbColor): (s: string)
    ensures |s| == 7 && s[0] == '#'
    ensures IsHexDigit(s[6]) && IsTrimmed(s)
  {
    var r := HexByte(c.r);
    var g := HexByte(c.g);
    var b := HexByte(c.b);
    ['#', r[0], r[1], g[0], g[1], b[0], b[1]]
  }

  /** Every colour written as "#RRGGBB" parses back to itself. */
  lemma ParseFormatHex(c: RgbColor)
    ensures TryParseHex(FormatHex(c)) == Some(c)
  {
    var s := FormatHex(c);
    assert !IsWhiteSpace(s[0]) && !IsWhiteSpace(s[6]);
    TrimOfTrimmed(s);
    var digits := s[1..];
    assert digits[..2] == [s[1], s[2]] == HexByte(c.r);
    assert digits[2..4] == [s[3], s[4]] == HexByte(c.g);
    assert digits[4..6] == [s[5], s[6]] == HexByte(c.b);
  }

  // ----------------------------------------------------------- style lines

  /** The key and the value of a style line: the trimmed line split at its
      first ':', each side trimmed; nothing for a line with no ':' or whose
      first ':' opens or ends it (a blank line has no ':'). */
  function SplitAssignment(rawLine: string): (r: Option<(string, string)>)
    ensures var line := Trim(rawLine);
      r.None? <==> ':' !in line || line[0] == ':' || ':' !in line[..|line| - 1]
    ensures r.Some? ==>
      var line := Trim(rawLine);
      exists i :: 0 < i < |line| - 1 && line[i] == ':' && ':' !in line[..i]
        && r.value == (Trim(line[..i]), Trim(line[i + 1..]))
  {
    SplitLineMeans(Trim(rawLine));
    SplitLine(Trim(rawLine))
  }

  /** SplitAssignment on the line once it is trimmed. */
  function SplitLine(line: string): Option<(string, string)>
  {
    if IsBlank(line) then None
    else
      match IndexOf(line, ":")
      case None => None
      case Some(i) =>
        if i == 0 || i == |line| - 1 then None
        else Some((Trim(line[..i]), Trim(line[i + 1..])))
  }

  /** A trimmed line is skipped exactly when it has no ':' or its first ':'
      opens or ends it; otherwise it splits at its first ':'. */
  lemma SplitLineMeans(line: string)
    ensures SplitLine(line).None? <==> ':' !in line || line[0] == ':' || ':' !in line[..|line| - 1]
    ensures SplitLine(line).Some? ==>
      exists i :: 0 < i < |line| - 1 && line[i] == ':' && ':' !in line[..i]
        && SplitLine(line).value == (Trim(line[..i]), Trim(line[i + 1..]))
  {
    IndexOfChar(line, ':');
    if IsBlank(line) {
      BlankHasNoColon(line);
    } else if IndexOf(line, ":").Some? {
      var i := IndexOf(line, ":").value;
      if i == 0 {
        assert line[0] == ':';
      } else if i == |line| - 1 {
        assert line[..|line| - 1] == line[..i];
      } else {
        assert line[..|line| - 1][i] == ':';
        assert SplitLine(line).value == (Trim(line[..i]), Trim(line[i + 1..]));
      }
    }
  }

  lemma BlankHasNoColon(line: string)
    requires IsBlank(line)
    ensures ':' !in line
  {
    forall j | 0 <= j < |line| ensures line[j] != ':' {
      assert IsWhiteSpace(line[j]);
    }
  }

  /** The colour a style line assigns, if any. */
  function ParseLine(rawLine: string): (r: Option<(StyleKey, RgbColor)>)
    ensures SplitAssignment(rawLine).None? ==> r.None?
  {
    match SplitAssignment(rawLine)
    case None => None
    case Some((key, value)) => ParseAssignment(key, value)
  }

  /** The entry a key names, ignoring case, and the colour a value holds. */
  function ParseAssignment(key: string, value: string): (r: Option<(StyleKey, RgbColor)>)
  {
    match LookupKey(key)
    case None => None
    case Some(k) =>
      match TryParseHex(value)
      case None => None
      case Some(c) => Some((k, c))
  }

  /** A line split into a key and a value assigns a colour exactly when the
      key names an entry, ignoring case, and the value is a valid colour. */
  lemma ParseLineOf(rawLine: string, key: string, value: string, k: StyleKey, c: RgbColor)
    requires SplitAssignment(rawLine) == Some((key, value))
    ensures ParseLine(rawLine) == Some((k, c)) <==> EqualsIgnoreCase(key, KeyName(k)) && TryParseHex(value) == Some(c)
  {
    assert ParseLine(rawLine) == ParseAssignment(key, value);
    ParseAssignmentOf(key, value, k, c);
  }

  lemma ParseAssignmentOf(key: string, value: string, k: StyleKey, c: RgbColor)
    ensures ParseAssignment(key, value) == Some((k, c)) <==> EqualsIgnoreCase(key, KeyName(k)) && TryParseHex(value) == Some(c)
  {
    if EqualsIgnoreCase(key, KeyName(k)) {
      LookupKeyName(key, k);
    }
  }

  // ------------------------------------------------------------ the fold

  /** A dictionary that holds all six entries. */
  predicate Complete(colors: map<StyleKey, RgbColor>) {
    && Header1 in colors && Header2 in colors && NormalText in colors
    && HyperlinkText in colors && SelectorColor in colors && SelectionColor in colors
  }

  /** The colour of one entry of a style. */
  function ColorOf(style: PresentationStyle, k: StyleKey): RgbColor {
    match k
    case Header1 => style.header1
    case Header2 => style.header2
    case NormalText => style.normalText
    case HyperlinkText => style.hyperlinkText
    case SelectorColor => style.selectorColor
    case SelectionColor => style.selectionColor
  }

  /** The dictionary LoadFromFile starts from. */
  function ColorsOf(style: PresentationStyle): (m: map<StyleKey, RgbColor>)
    ensures Complete(m)
  {
    map[Header1 := style.header1, Header2 := style.header2, NormalText := style.normalText,
        HyperlinkText := style.hyperlinkText, SelectorColor := style.selectorColor,
        SelectionColor := style.selectionColor]
  }

  /** The style LoadFromFile builds from the final dictionary. */
  function StyleOf(colors: map<StyleKey, RgbColor>): PresentationStyle
    requires Complete(colors)
  {
    PresentationStyle(colors[Header1], colors[Header2], colors[NormalText],
                      colors[HyperlinkText], colors[SelectorColor], colors[SelectionColor])
  }

  /** The starting dictionary holds the base style's colours. */
  lemma ColorsOfColor(style: PresentationStyle, k: StyleKey)
    ensures k in ColorsOf(style) && ColorsOf(style)[k] == ColorOf(style, k)
  {
    match k
    case Header1 =>
    case Header2 =>
    case NormalText =>
    case HyperlinkText =>
    case SelectorColor =>
    case SelectionColor =>
  }

  /** The built style holds the final dictionary's colours. */
  lemma StyleOfColor(colors: map<StyleKey, RgbColor>, k: StyleKey)
    requires Complete(colors)
    ensures k in colors && ColorOf(StyleOf(colors), k) == colors[k]
  {
    match k
    case Header1 =>
    case Header2 =>
    case NormalText =>
    case HyperlinkText =>
    case SelectorColor =>
    case SelectionColor =>
  }

  /** What a line asks for: an entry and its new colour, or nothing. */
  type Assignment = Option<(StyleKey, RgbColor)>

  /** The assignments the lines of a file make, in order. */
  function Assignments(lines: seq<string>): (r: seq<Assignment>)
    ensures |r| == |lines|
    ensures forall i :: 0 <= i < |lines| ==> r[i] == ParseLine(lines[i])
  {
    Map(lines, ParseLine)
  }

  /** The dictionary after one assignment. */
  function Step(colors: map<StyleKey, RgbColor>, a: Assignment): (r: map<StyleKey, RgbColor>)
    requires Complete(colors)
    ensures Complete(r)
  {
    match a
    case None => colors
    case Some((k, c)) => colors[k := c]
  }

  /** The dictionary after the assignments, one after another. */
  function Apply(colors: map<StyleKey, RgbColor>, assignments: seq<Assignment>): (r: map<StyleKey, RgbColor>)
    requires Complete(colors)
    ensures Complete(r)
    decreases |assignments|
  {
    if assignments == [] then colors
    else Step(Apply(colors, assignments[..|assignments| - 1]), assignments[|assignments| - 1])
  }

  lemma ApplySnoc(colors: map<StyleKey, RgbColor>, assignments: seq<Assignment>, a: Assignment)
    requires Complete(colors)
    ensures Apply(colors, assignments + [a]) == Step(Apply(colors, assignments), a)
  {
    assert (assignments + [a])[..|assignments|] == assignments;
  }

  /** Whether an assignment is to the entry k. */
  predicate Assigns(a: Assignment, k: StyleKey) {
    a.Some? && a.value.0 == k
  }

  /** The colour of the last assignment to k, found from the end. */
  function LastAssigned(k: StyleKey, assignments: seq<Assignment>): (r: Option<RgbColor>)
    ensures r.None? <==> forall i :: 0 <= i < |assignments| ==> !Assigns(assignments[i], k)
    ensures r.Some? ==> exists i :: 0 <= i < |assignments| && assignments[i] == Some((k, r.value))
    decreases |assignments|
  {
    if assignments == [] then None
    else if Assigns(assignments[|assignments| - 1], k) then Some(assignments[|assignments| - 1].value.1)
    else
      var init := assignments[..|assignments| - 1];
      var r := LastAssigned(k, init);
      assert forall i :: 0 <= i < |init| ==> init[i] == assignments[i];
      r
  }

  /** Each entry ends up with the colour of the last assignment to it, and
      keeps its starting colour when there is none. */
  lemma {:induction false} ApplyLastAssigned(colors: map<StyleKey, RgbColor>, assignments: seq<Assignment>, k: StyleKey)
    requires Complete(colors)
    ensures k in colors && k in Apply(colors, assignments)
    ensures Apply(colors, assignments)[k] == LastAssigned(k, assignments).GetOr(colors[k])
    decreases |assignments|
  {
    if assignments != [] {
      ApplyLastAssigned(colors, assignments[..|assignments| - 1], k);
    }
  }

  /** An assignment to k decides its colour unless a later one assigns k
      again. */
  lemma {:induction false} LaterAssignmentWins(k: StyleKey, before: seq<Assignment>, c: RgbColor,
                                               after: seq<Assignment>)
    requires forall i :: 0 <= i < |after| ==> !Assigns(after[i], k)
    ensures LastAssigned(k, before + [Some((k, c))] + after) == Some(c)
    decreases |after|
  {
    if after == [] {
      AppendNil(before + [Some((k, c))]);
    } else {
      var init := after[..|after| - 1];
      DropLastOfAppend(before + [Some((k, c))], after);
      LaterAssignmentWins(k, before, c, init);
    }
  }

  /** The colours loaded from a file's lines on top of a base style. */
  function LoadedStyle(lines: seq<string>, baseStyle: PresentationStyle): (r: PresentationStyle)
    ensures lines == [] ==> r == baseStyle
  {
    StyleOf(Apply(ColorsOf(baseStyle), Assignments(lines)))
  }

  /** In a loaded style every entry has the colour of the last line that
      assigns it, or the base colour when no line does. */
  lemma LoadedColor(lines: seq<string>, baseStyle: PresentationStyle, k: StyleKey)
    ensures ColorOf(LoadedStyle(lines, baseStyle), k)
      == LastAssigned(k, Assignments(lines)).GetOr(ColorOf(baseStyle, k))
  {
    ApplyLastAssigned(ColorsOf(baseStyle), Assignments(lines), k);
    ColorsOfColor(baseStyle, k);
    StyleOfColor(Apply(ColorsOf(baseStyle), Assignments(lines)), k);
  }

  /** A line that assigns a colour to k decides it when no later line
      assigns k. */
  lemma LaterLineWins(before: seq<string>, line: string, after: seq<string>, baseStyle: PresentationStyle,
                      k: StyleKey, c: RgbColor)
    requires ParseLine(line) == Some((k, c))
    requires forall i :: 0 <= i < |after| ==> !Assigns(ParseLine(after[i]), k)
    ensures ColorOf(LoadedStyle(before + [line] + after, baseStyle), k) == c
  {
    AssignmentsAround(before, line, after);
    LaterAssignmentWins(k, Assignments(before), c, Assignments(after));
    LoadedColor(before + [line] + after, baseStyle, k);
  }

  /** The assignments of lines around one line: those before it, its own,
      then those after it. */
  lemma AssignmentsAround(before: seq<string>, line: string, after: seq<string>)
    ensures Assignments(before + [line] + after)
      == Assignments(before) + [ParseLine(line)] + Assignments(after)
  {
    MapAppend(before, [line], ParseLine);
    MapAppend(before + [line], after, ParseLine);
    assert Map([line], ParseLine) == [ParseLine(line)];
  }

  /** An entry no line assigns keeps its base colour. */
  lemma UnmentionedKept(lines: seq<string>, baseStyle: PresentationStyle, k: StyleKey)
    requires forall i :: 0 <= i < |lines| ==> !Assigns(ParseLine(lines[i]), k)
    ensures ColorOf(LoadedStyle(lines, baseStyle), k) == ColorOf(baseStyle, k)
  {
    LoadedColor(lines, baseStyle, k);
  }

  /** One pass of LoadFromFile's foreach: the steps that read a raw line,
      each `continue` returning None. */
  method ReadLine(rawLine: string) returns (a: Assignment)
    ensures a == ParseLine(rawLine)
  {
    var line := Trim(rawLine);
    ParseLineOfLine(rawLine);
    if IsBlank(line) {
      return None;
    }
    var separatorIndex := IndexOf(line, ":");
    if separatorIndex.None? || separatorIndex.value == 0 || separatorIndex.value == |line| - 1 {
      return None;
    }
    var key := Trim(line[..separatorIndex.value]);
    var value := Trim(line[separatorIndex.value + 1..]);
    assert SplitLine(line) == Some((key, value));
    var entry := LookupKey(key);
    if entry.None? {
      return None;
    }
    var color := TryParseHex(value);
    if color.None? {
      return None;
    }
    return Some((entry.value, color.value));
  }

  /** ParseLine in terms of the trimmed line. */
  lemma ParseLineOfLine(rawLine: string)
    ensures ParseLine(rawLine) ==
      match SplitLine(Trim(rawLine))
      case None => None
      case Some((key, value)) => ParseAssignment(key, value)
  {
  }

  /** LoadFromFile over the lines of the file: the dictionary starts from the
      base style and every line that assigns an entry overwrites it. */
  method LoadFromFile(lines: seq<string>, baseStyle: PresentationStyle) returns (style: PresentationStyle)
    ensures style == LoadedStyle(lines, baseStyle)
  {
    var colors := ColorsOf(baseStyle);
    for i := 0 to |lines|
      invariant Complete(colors)
      invariant colors == Apply(ColorsOf(baseStyle), Assignments(lines[..i]))
    {
      MapSnoc(lines, i, ParseLine);
      ApplySnoc(ColorsOf(baseStyle), Assignments(lines[..i]), ParseLine(lines[i]));
      var assignment := ReadLine(lines[i]);
      if assignment.Some? {
        colors := colors[assignment.value.0 := assignment.value.1];
      }
    }
    FullSlice(lines);
    style := StyleOf(colors);
  }

  // ------------------------------------------------------------ candidates

  const DefaultStyleFile: string := "default.style"

  /** The candidate style files of a presentation, in order: the
      presentation's own path with the extension ".style", "default.style"
      beside it, and "default.style" in the current directory. */
  function Candidates(presentation: PathParts, currentDirectory: string): (r: seq<string>)
    ensures |r| == 3
    ensures r[0] == Combine(presentation.directory, presentation.stem + ".style")
    ensures r[1] == Combine(presentation.directory, DefaultStyleFile)
    ensures r[2] == Combine(currentDirectory, DefaultStyleFile)
    ensures FileName(r[1]) == DefaultStyleFile && FileName(r[2]) == DefaultStyleFile
  {
    CombineFileName(presentation.directory, DefaultStyleFile);
    CombineFileName(currentDirectory, DefaultStyleFile);
    [Combine(presentation.directory, presentation.stem + ".style"),
     Combine(presentation.directory, DefaultStyleFile),
     Combine(currentDirectory, DefaultStyleFile)]
  }

  /** Load: the first candidate that exists is loaded on top of the default
      style; with none, the default style. */
  method Load(presentation: PathParts, currentDirectory: string, fileExists: string -> bool,
              readLines: string -> seq<string>) returns (style: PresentationStyle)
    ensures var c := Candidates(presentation, currentDirectory);
      && (fileExists(c[0]) ==> style == LoadedStyle(readLines(c[0]), Default))
      && (!fileExists(c[0]) && fileExists(c[1]) ==> style == LoadedStyle(readLines(c[1]), Default))
      && (!fileExists(c[0]) && !fileExists(c[1]) && fileExists(c[2]) ==> style == LoadedStyle(readLines(c[2]), Default))
      && (!fileExists(c[0]) && !fileExists(c[1]) && !fileExists(c[2]) ==> style == Default)
  {
    var candidates := Candidates(presentation, currentDirectory);
    var presentationStylePath := candidates[0];
    var defaultStylePathInPresentationDirectory := candidates[1];
    var defaultStylePathInCurrentDirectory := candidates[2];
    if fileExists(presentationStylePath) {
      style := LoadFromFile(readLines(presentationStylePath), Default);
      return;
    }
    if fileExists(defaultStylePathInPresentationDirectory) {
      style := LoadFromFile(readLines(defaultStylePathInPresentationDirectory), Default);
      return;
    }
    if fileExists(defaultStylePathInCurrentDirectory) {
      style := LoadFromFile(readLines(defaultStylePathInCurrentDirectory), Default);
      return;
    }
    style := Default;
  }

  // -------------------------------------------------------------- examples

  /** A trimmed "#" and three byte pairs is the colour of those pairs. */
  lemma HexOfPairs(value: string, r: byte, g: byte, b: byte)
    requires |value| == 7 && value[0] == '#' && !IsWhiteSpace(value[6])
    requires ParseHexPair(value[1..3]) == Some(r)
    requires ParseHexPair(value[3..5]) == Some(g)
    requires ParseHexPair(value[5..7]) == Some(b)
    ensures TryParseHex(value) == Some(RgbColor(r, g, b))
  {
    TrimOfTrimmed(value);
    HashOfPairs(value, r, g, b);
  }

  /** HexOfPairs for the value once trimmed. */
  lemma HashOfPairs(hex: string, r: byte, g: byte, b: byte)
    requires |hex| == 7 && hex[0] == '#'
    requires ParseHexPair(hex[1..3]) == Some(r)
    requires ParseHexPair(hex[3..5]) == Some(g)
    requires ParseHexPair(hex[5..7]) == Some(b)
    ensures ParseHashColor(hex) == Some(RgbColor(r, g, b))
  {
    ParseHashColorMeans(hex);
  }

  /** "#0A141E" is (10, 20, 30). */
  lemma HexExample1()
    ensures TryParseHex("#0A141E") == Some(RgbColor(10, 20, 30))
  {
    var s := "#0A141E";
    assert s[1..3] == "0A" && s[3..5] == "14" && s[5..7] == "1E";
    HexOfPairs(s, 10, 20, 30);
  }

  /** "#FF00FF" is (255, 0, 255). */
  lemma HexExample2()
    ensures TryParseHex("#FF00FF") == Some(RgbColor(255, 0, 255))
  {
    var s := "#FF00FF";
    assert s[1..3] == "FF" && s[3..5] == "00" && s[5..7] == "FF";
    HexOfPairs(s, 255, 0, 255);
  }

  /** A value that does not start with '#' is not a colour, so the entry
      keeps its colour: "not-a-color", "1,2" and "1000,0,0" among them. */
  lemma NotHex(value: string)
    requires IsTrimmed(value) && value != [] && value[0] != '#'
    ensures TryParseHex(value) == None
  {
    TrimOfTrimmed(value);
  }

  lemma NotHexExamples()
    ensures TryParseHex("not-a-color") == None
    ensures TryParseHex("1,2") == None
    ensures TryParseHex("1000,0,0") == None
  {
    NotHex("not-a-color");
    NotHex("1,2");
    NotHex("1000,0,0");
  }

  /** A '#' and six characters whose first pair holds no hex digit is
      rejected, although it has the right shape. */
  lemma NotHexPair(value: string)
    requires IsTrimmed(value) && |value| == 7 && value[0] == '#'
    requires !IsHexDigit(value[1]) && !IsHexDigit(value[2])
    ensures TryParseHex(value) == None
  {
    TrimOfTrimmed(value);
    HashNotHexPair(value);
  }

  /** NotHexPair for the value once trimmed. */
  lemma HashNotHexPair(hex: string)
    requires |hex| == 7 && hex[0] == '#' && !IsHexDigit(hex[1]) && !IsHexDigit(hex[2])
    ensures ParseHashColor(hex) == None
  {
    var pair := hex[1..3];
    assert pair[0] == hex[1] && pair[1] == hex[2];
    ParseHashColorMeans(hex);
  }

  /** "#GG0000" is rejected. */
  lemma NotHexDigitsExample()
    ensures TryParseHex("#GG0000") == None
  {
    var v := "#GG0000";
    assert v[0] == '#' && v[1] == 'G' && v[2] == 'G' && v[6] == '0';
    NotHexPair(v);
  }

  /** A trimmed line whose first ':' is inside it splits there. */
  lemma SplitAt(line: string, i: nat)
    requires IsTrimmed(line) && 0 < i < |line| - 1 && line[i] == ':' && ':' !in line[..i]
    ensures SplitAssignment(line) == Some((Trim(line[..i]), Trim(line[i + 1..])))
  {
    TrimOfTrimmed(line);
    IndexOfChar(line, ':');
  }

  /** Each name is trimmed and holds no ':'. */
  lemma KeyNameShape(k: StyleKey)
    ensures KeyName(k) != [] && IsTrimmed(KeyName(k)) && ':' !in KeyName(k)
  {
  }

  /** A style line in the form "Name: #RRGGBB". */
  function FormatLine(k: StyleKey, c: RgbColor): string {
    KeyName(k) + ": " + FormatHex(c)
  }

  /** A line written as "Name: #RRGGBB" splits into the name and the
      colour. */
  lemma FormatLineSplit(k: StyleKey, c: RgbColor)
    ensures SplitAssignment(FormatLine(k, c)) == Some((KeyName(k), FormatHex(c)))
  {
    var name := KeyName(k);
    var hex := FormatHex(c);
    var line := FormatLine(k, c);
    var i := |name|;
    KeyNameShape(k);
    assert line[..i] == name;
    assert line[i + 1..] == " " + hex;
    assert IsTrimmed(line) by {
      assert line[0] == name[0];
      assert line[|line| - 1] == hex[6];
    }
    SplitAt(line, i);
    TrimOfTrimmed(name);
    TrimAfterSpace(hex);
  }

  /** A line written as "Name: #RRGGBB" assigns that colour to that entry. */
  lemma ParseFormatLine(k: StyleKey, c: RgbColor)
    ensures ParseLine(FormatLine(k, c)) == Some((k, c))
  {
    FormatLineSplit(k, c);
    LookupKeyName(KeyName(k), k);
    ParseFormatHex(c);
    ParseLineOf(FormatLine(k, c), KeyName(k), FormatHex(c), k, c);
  }
}
