/** The ASCII banner renderer of src/ASCzee/AsciiBannerRenderer.cs: a slide
    title is trimmed and upper-cased, wrapped into chunks of whole words that
    fit the width, and each chunk is drawn as five rows of 5-column glyphs,
    centred, with optional border lines above and below. */
module Banner {
  import opened Wrappers
  import opened Seqs
  import opened Text

  const GlyphHeight: nat := 5
  const Untitled: string := "UNTITLED"

  /** U+2550, BOX DRAWINGS DOUBLE HORIZONTAL. */
  const BorderChar: char := '\U{2550}'

  function Max(a: int, b: int): int {
    if a >= b then a else b
  }

  function Min(a: int, b: int): int {
    if a <= b then a else b
  }

  /** C# integer division by a positive divisor: the quotient is truncated
      toward zero. */
  function CDiv(a: int, b: int): (q: int)
    requires b > 0
    ensures a >= 0 ==> b * q <= a < b * q + b
    ensures a < 0 ==> b * q >= a > b * q - b
  {
    if a >= 0 then a / b else -((-a) / b)
  }

  // ---------------------------------------------------------------- glyphs

  /** The glyph drawn for a character missing from the table. */
  const FallbackGlyph: seq<string> := ["#####", "# ? #", "# ? #", "# ? #", "#####"]

  /** The characters the glyph table has an entry for. */
  predicate HasGlyph(c: char) {
    ('A' <= c <= 'Z') || ('0' <= c <= '9') || c == '-' || c == ' '
  }

  /** The glyph table with its fallback: five rows. */
  function GetGlyph(c: char): (rows: seq<string>)
    ensures |rows| == GlyphHeight
  {
    match c
    case 'A' => [" ### ", "#   #", "#####", "#   #", "#   #"]
    case 'B' => ["#### ", "#   #", "#### ", "#   #", "#### "]
    case 'C' => [" ####", "#    ", "#    ", "#    ", " ####"]
    case 'D' => ["#### ", "#   #", "#   #", "#   #", "#### "]
    case 'E' => ["#####", "#    ", "#### ", "#    ", "#####"]
    case 'F' => ["#####", "#    ", "#### ", "#    ", "#    "]
    case 'G' => [" ####", "#    ", "# ###", "#   #", " ####"]
    case 'H' => ["#   #", "#   #", "#####", "#   #", "#   #"]
    case 'I' => ["#####", "  #  ", "  #  ", "  #  ", "#####"]
    case 'J' => ["#####", "   # ", "   # ", "#  # ", " ##  "]
    case 'K' => ["#   #", "#  # ", "###  ", "#  # ", "#   #"]
    case 'L' => ["#    ", "#    ", "#    ", "#    ", "#####"]
    case 'M' => ["#   #", "## ##", "# # #", "#   #", "#   #"]
    case 'N' => ["#   #", "##  #", "# # #", "#  ##", "#   #"]
    case 'O' => [" ### ", "#   #", "#   #", "#   #", " ### "]
    case 'P' => ["#### ", "#   #", "#### ", "#    ", "#    "]
    case 'Q' => [" ### ", "#   #", "#   #", "#  ##", " ####"]
    case 'R' => ["#### ", "#   #", "#### ", "#  # ", "#   #"]
    case 'S' => [" ####", "#    ", " ### ", "    #", "#### "]
    case 'T' => ["#####", "  #  ", "  #  ", "  #  ", "  #  "]
    case 'U' => ["#   #", "#   #", "#   #", "#   #", " ### "]
    case 'V' => ["#   #", "#   #", "#   #", " # # ", "  #  "]
    case 'W' => ["#   #", "#   #", "# # #", "## ##", "#   #"]
    case 'X' => ["#   #", " # # ", "  #  ", " # # ", "#   #"]
    case 'Y' => ["#   #", " # # ", "  #  ", "  #  ", "  #  "]
    case 'Z' => ["#####", "   # ", "  #  ", " #   ", "#####"]
    case '0' => [" ### ", "#  ##", "# # #", "##  #", " ### "]
    case '1' => ["  #  ", " ##  ", "  #  ", "  #  ", " ### "]
    case '2' => [" ### ", "#   #", "   # ", "  #  ", "#####"]
    case '3' => ["#####", "   # ", "  ## ", "   # ", "#####"]
    case '4' => ["#   #", "#   #", "#####", "    #", "    #"]
    case '5' => ["#####", "#    ", "#### ", "    #", "#### "]
    case '6' => [" ### ", "#    ", "#### ", "#   #", " ### "]
    case '7' => ["#####", "   # ", "  #  ", " #   ", "#    "]
    case '8' => [" ### ", "#   #", " ### ", "#   #", " ### "]
    case '9' => [" ### ", "#   #", " ####", "    #", " ### "]
    case '-' => ["     ", "     ", "#####", "     ", "     "]
    case ' ' => ["   ", "   ", "   ", "   ", "   "]
    case _ => FallbackGlyph
  }

  /** Each row of a glyph is 5 columns wide, except the 3-column space. */
  lemma GlyphWidths(c: char, r: nat)
    requires r < GlyphHeight
    ensures |GetGlyph(c)[r]| == if c == ' ' then 3 else 5
  {
  }

  /** Exactly the characters outside the table get the fallback glyph. */
  lemma GlyphFallback(c: char)
    ensures !HasGlyph(c) <==> GetGlyph(c) == FallbackGlyph
  {
  }

  // ------------------------------------------------------------ safe text

  /** The text Render draws: "UNTITLED" for a null or blank title, otherwise
      the trimmed title in upper case. */
  function Safe(text: Option<string>): (r: string)
    ensures r != [] && IsTrimmed(r)
    ensures text.None? || IsBlank(text.value) ==> r == Untitled
    ensures text.Some? && !IsBlank(text.value) ==> r == ToUpperAscii(Trim(text.value))
  {
    if text.None? || IsBlank(text.value) then Untitled
    else ToUpperAscii(Trim(text.value))
  }

  /** The most glyphs a line of the given width holds: (width - 2) / 6, at
      least one. */
  function MaxChars(width: int): (r: int)
    ensures r >= 1
    ensures width < 8 ==> r == 1
    ensures width >= 8 ==> 6 * r <= width - 2 < 6 * r + 6
  {
    Max(1, CDiv(width - 2, 6))
  }

  // ----------------------------------------------------------- word wrap

  /** The words of the text: its pieces between single spaces, empty pieces
      dropped. */
  function Words(text: string): (r: seq<string>)
    ensures forall k :: 0 <= k < |r| ==> r[k] != "" && ' ' !in r[k]
  {
    var parts := Split(text, " ");
    PiecesHaveNoSpace(parts);
    RemoveEmpty(parts)
  }

  lemma PiecesHaveNoSpace(parts: seq<string>)
    requires forall k :: 0 <= k < |parts| ==> IndexOf(parts[k], " ").None?
    ensures forall k :: 0 <= k < |parts| ==> ' ' !in parts[k]
  {
    forall k | 0 <= k < |parts| ensures ' ' !in parts[k] {
      AbsentChar(parts[k], ' ');
    }
  }

  /** The inner loop for a word longer than a line: pieces of max characters
      (the last one shorter) from position i on. */
  function PiecesFrom(word: string, i: nat, max: nat): (r: seq<string>)
    requires max >= 1
    ensures forall k :: 0 <= k < |r| ==> 1 <= |r[k]| <= max
    ensures i < |word| ==> r != []
    decreases |word| - i
  {
    if i >= |word| then []
    else [word[i..i + Min(max, |word| - i)]] + PiecesFrom(word, i + max, max)
  }

  lemma PiecesFromUnfold(word: string, i: nat, max: nat)
    requires max >= 1 && i < |word|
    ensures PiecesFrom(word, i, max) == [word[i..i + Min(max, |word| - i)]] + PiecesFrom(word, i + max, max)
  {
  }

  /** The pieces put back together give the rest of the word. */
  lemma {:induction false} PiecesFlatten(word: string, i: nat, max: nat)
    requires max >= 1 && i <= |word|
    ensures Flatten(PiecesFrom(word, i, max)) == word[i..]
    decreases |word| - i
  {
    if i < |word| {
      var n := Min(max, |word| - i);
      if i + max <= |word| {
        PiecesFlatten(word, i + max, max);
        assert word[i..] == word[i..i + n] + word[i + max..];
      } else {
        assert PiecesFrom(word, i + max, max) == [];
        assert word[i..i + n] == word[i..];
      }
    }
  }

  /** The state of WrapByWord's loop: the chunks emitted and the line being
      filled. */
  datatype WrapState = WrapState(chunks: seq<string>, current: string)

  /** One iteration of WrapByWord's loop over the words. */
  function Step(st: WrapState, word: string, max: nat): WrapState
    requires max >= 1
  {
    if |word| > max then
      if !IsBlank(st.current) then WrapState(st.chunks + [st.current] + PiecesFrom(word, 0, max), "")
      else WrapState(st.chunks + PiecesFrom(word, 0, max), st.current)
    else
      var candidate := if IsBlank(st.current) then word else st.current + " " + word;
      if |candidate| <= max then WrapState(st.chunks, candidate)
      else WrapState(st.chunks + [st.current], word)
  }

  /** The loop state after the given words. */
  function WrapWords(words: seq<string>, max: nat): WrapState
    requires max >= 1
  {
    if words == [] then WrapState([], "")
    else Step(WrapWords(words[..|words| - 1], max), words[|words| - 1], max)
  }

  lemma WrapWordsStep(words: seq<string>, w: nat, max: nat)
    requires max >= 1 && w < |words|
    ensures WrapWords(words[..w + 1], max) == Step(WrapWords(words[..w], max), words[w], max)
  {
    assert words[..w + 1][..w] == words[..w];
  }

  /** After the loop: a non-blank current line is emitted, and an empty result
      becomes ["UNTITLED"]. */
  function Finish(st: WrapState): (r: seq<string>)
    ensures |r| >= 1
  {
    var cs := if !IsBlank(st.current) then st.chunks + [st.current] else st.chunks;
    if cs == [] then [Untitled] else cs
  }

  /** What WrapByWord returns. */
  function Wrap(text: string, max: nat): (r: seq<string>)
    requires max >= 1
    ensures |r| >= 1
  {
    Finish(WrapWords(Words(text), max))
  }

  /** The inner for loop of WrapByWord: a word longer than a line is cut into
      pieces of max characters, appended in order. */
  method AppendPieces(chunks: seq<string>, word: string, max: nat) returns (r: seq<string>)
    requires max >= 1
    ensures r == chunks + PiecesFrom(word, 0, max)
  {
    r := chunks;
    var i: nat := 0;
    while i < |word|
      invariant r + PiecesFrom(word, i, max) == chunks + PiecesFrom(word, 0, max)
      decreases |word| - i
    {
      var piece := word[i..i + Min(max, |word| - i)];
      PiecesFromUnfold(word, i, max);
      AppendCons(r, piece, PiecesFrom(word, i + max, max));
      r := r + [piece];
      i := i + max;
    }
  }

  /** WrapByWord: the foreach over the words, the inner for loop cutting long
      words, and the final emission. */
  method WrapByWord(text: string, maxCharsPerLine: int) returns (chunks: seq<string>)
    requires maxCharsPerLine >= 1
    ensures chunks == Wrap(text, maxCharsPerLine)
    ensures |chunks| >= 1
  {
    var max: nat := maxCharsPerLine;
    var words := Words(text);
    chunks := [];
    var current := "";
    for w := 0 to |words|
      invariant WrapState(chunks, current) == WrapWords(words[..w], max)
    {
      var word := words[w];
      WrapWordsStep(words, w, max);
      if |word| > max {
        if !IsBlank(current) {
          chunks := chunks + [current];
          current := "";
        }
        chunks := AppendPieces(chunks, word, max);
        continue;
      }
      var candidate := if IsBlank(current) then word else current + " " + word;
      if |candidate| <= max {
        current := candidate;
      } else {
        chunks := chunks + [current];
        current := word;
      }
    }
    FullSlice(words);
    if !IsBlank(current) {
      chunks := chunks + [current];
    }
    if |chunks| == 0 {
      chunks := chunks + [Untitled];
    }
  }

  // ------------------------------------------------- properties of Wrap

  lemma NotBlankAfter(a: string, b: string)
    requires !IsBlank(a)
    ensures !IsBlank(a + b)
  {
    var i :| 0 <= i < |a| && !IsWhiteSpace(a[i]);
    assert (a + b)[i] == a[i];
  }

  lemma NotBlankBefore(a: string, b: string)
    requires !IsBlank(b)
    ensures !IsBlank(a + b)
  {
    var i :| 0 <= i < |b| && !IsWhiteSpace(b[i]);
    assert (a + b)[|a| + i] == b[i];
  }

  /** Every chunk and the line being filled stay within max characters. */
  predicate Fits(st: WrapState, max: nat) {
    (forall k :: 0 <= k < |st.chunks| ==> |st.chunks[k]| <= max) && |st.current| <= max
  }

  /** Something has been emitted or is waiting to be emitted. */
  predicate Holding(st: WrapState) {
    st.chunks != [] || !IsBlank(st.current)
  }

  lemma StepFits(st: WrapState, word: string, max: nat)
    requires max >= 1 && Fits(st, max)
    ensures Fits(Step(st, word, max), max)
  {
  }

  /** Once something is held it stays held, and a non-blank word is always
      held. */
  lemma StepHolds(st: WrapState, word: string, max: nat)
    requires max >= 1 && (Holding(st) || !IsBlank(word))
    ensures Holding(Step(st, word, max))
  {
    if |word| > max {
      assert PiecesFrom(word, 0, max) != [];
    } else if !IsBlank(st.current) {
      NotBlankAfter(st.current, " " + word);
      assert st.current + " " + word == st.current + (" " + word);
    }
  }

  lemma {:induction false} WrapWordsFit(words: seq<string>, max: nat)
    requires max >= 1
    ensures Fits(WrapWords(words, max), max)
    ensures (exists k :: 0 <= k < |words| && !IsBlank(words[k])) ==> Holding(WrapWords(words, max))
    decreases |words|
  {
    if words != [] {
      var init := words[..|words| - 1];
      var last := words[|words| - 1];
      WrapWordsFit(init, max);
      StepFits(WrapWords(init, max), last, max);
      if exists k :: 0 <= k < |words| && !IsBlank(words[k]) {
        var k :| 0 <= k < |words| && !IsBlank(words[k]);
        if k < |init| {
          assert init[k] == words[k];
        }
        StepHolds(WrapWords(init, max), last, max);
      }
    }
  }

  /** WrapByWord never returns a chunk longer than a line, provided one of the
      words is not blank (for blank words only it returns ["UNTITLED"]). */
  lemma WrapFits(text: string, max: nat)
    requires max >= 1
    requires exists k :: 0 <= k < |Words(text)| && !IsBlank(Words(text)[k])
    ensures forall k :: 0 <= k < |Wrap(text, max)| ==> |Wrap(text, max)[k]| <= max
  {
    WrapWordsFit(Words(text), max);
  }

  /** The characters other than ' ', in order. */
  function RemoveSpaces(s: string): string {
    if s == [] then [] else (if s[0] == ' ' then [] else [s[0]]) + RemoveSpaces(s[1..])
  }

  lemma {:induction false} RemoveSpacesAppend(a: string, b: string)
    ensures RemoveSpaces(a + b) == RemoveSpaces(a) + RemoveSpaces(b)
    decreases |a|
  {
    if a == [] {
      assert a + b == b;
    } else {
      assert (a + b)[1..] == a[1..] + b;
      RemoveSpacesAppend(a[1..], b);
    }
  }

  lemma {:induction false} RemoveSpacesOfWord(s: string)
    requires ' ' !in s
    ensures RemoveSpaces(s) == s
    decreases |s|
  {
    if s != [] {
      assert s[0] in s;
      assert forall i :: 0 <= i < |s| - 1 ==> s[1..][i] == s[i + 1];
      RemoveSpacesOfWord(s[1..]);
    }
  }

  lemma {:induction false} RemoveSpacesOfJoin(parts: seq<string>)
    requires forall k :: 0 <= k < |parts| ==> ' ' !in parts[k]
    ensures RemoveSpaces(Join(parts, " ")) == Flatten(parts)
    decreases |parts|
  {
    if |parts| == 1 {
      RemoveSpacesOfWord(parts[0]);
      assert Flatten(parts) == parts[0] + Flatten(parts[1..]);
    } else if |parts| > 1 {
      RemoveSpacesOfJoin(parts[1..]);
      RemoveSpacesOfWord(parts[0]);
      RemoveSpacesAppend(parts[0] + " ", Join(parts[1..], " "));
      RemoveSpacesAppend(parts[0], " ");
    }
  }

  lemma {:induction false} FlattenRemoveEmpty(parts: seq<string>)
    ensures Flatten(RemoveEmpty(parts)) == Flatten(parts)
    decreases |parts|
  {
    if parts != [] {
      FlattenRemoveEmpty(parts[1..]);
      var head := if parts[0] == "" then [] else [parts[0]];
      FlattenAppend(head, RemoveEmpty(parts[1..]));
      if parts[0] != "" {
        assert Flatten(head) == parts[0] + Flatten(head[1..]);
      }
    }
  }

  /** The words put together are the text without its spaces. */
  lemma WordsFlatten(text: string)
    ensures Flatten(Words(text)) == RemoveSpaces(text)
  {
    var parts := Split(text, " ");
    PiecesHaveNoSpace(parts);
    RemoveSpacesOfJoin(parts);
    FlattenRemoveEmpty(parts);
  }

  /** The characters of the loop state other than spaces. */
  function Shown(st: WrapState): string {
    RemoveSpaces(Flatten(st.chunks) + st.current)
  }

  /** The line being filled is empty or holds a word. */
  predicate Clean(st: WrapState) {
    st.current == "" || !IsBlank(st.current)
  }

  lemma LongWordKeepsText(st: WrapState, word: string, max: nat)
    requires max >= 1 && Clean(st) && ' ' !in word && |word| > max
    ensures Clean(Step(st, word, max))
    ensures Shown(Step(st, word, max)) == Shown(st) + word
  {
    var c := Flatten(st.chunks);
    var cur := st.current;
    var pieces := PiecesFrom(word, 0, max);
    RemoveSpacesOfWord(word);
    PiecesFlatten(word, 0, max);
    assert word[0..] == word;
    if !IsBlank(cur) {
      FlattenSnoc(st.chunks, cur);
      FlattenAppend(st.chunks + [cur], pieces);
      assert Flatten(st.chunks + [cur] + pieces) + "" == (c + cur) + word;
    } else {
      FlattenAppend(st.chunks, pieces);
      assert Flatten(st.chunks + pieces) + cur == (c + cur) + word;
    }
    RemoveSpacesAppend(c + cur, word);
  }

  lemma JoinedWordKeepsText(st: WrapState, word: string, max: nat)
    requires max >= 1 && !IsBlank(st.current) && ' ' !in word
    ensures !IsBlank(st.current + " " + word)
    ensures RemoveSpaces(Flatten(st.chunks) + (st.current + " " + word)) == Shown(st) + word
  {
    var c := Flatten(st.chunks);
    var cur := st.current;
    RemoveSpacesOfWord(word);
    AppendAssoc(cur, " ", word);
    NotBlankAfter(cur, " " + word);
    AppendAssoc(c, cur + " ", word);
    AppendAssoc(c, cur, " ");
    RemoveSpacesAppend((c + cur) + " ", word);
    RemoveSpacesAppend(c + cur, " ");
    assert RemoveSpaces(" ") == [];
    AppendNil(RemoveSpaces(c + cur));
  }

  lemma NewLineKeepsText(st: WrapState, word: string)
    requires ' ' !in word
    ensures RemoveSpaces(Flatten(st.chunks + [st.current]) + word) == Shown(st) + word
  {
    RemoveSpacesOfWord(word);
    FlattenSnoc(st.chunks, st.current);
    RemoveSpacesAppend(Flatten(st.chunks) + st.current, word);
  }

  lemma StepKeepsText(st: WrapState, word: string, max: nat)
    requires max >= 1 && Clean(st) && !IsBlank(word) && ' ' !in word
    ensures Clean(Step(st, word, max))
    ensures Shown(Step(st, word, max)) == Shown(st) + word
  {
    if |word| > max {
      LongWordKeepsText(st, word, max);
    } else if IsBlank(st.current) {
      RemoveSpacesOfWord(word);
      assert st.current == "";
      assert Flatten(st.chunks) + word == (Flatten(st.chunks) + st.current) + word;
      RemoveSpacesAppend(Flatten(st.chunks) + st.current, word);
    } else if |st.current + " " + word| <= max {
      JoinedWordKeepsText(st, word, max);
    } else {
      NewLineKeepsText(st, word);
    }
  }

  lemma {:induction false} WrapWordsKeepText(words: seq<string>, max: nat)
    requires max >= 1
    requires forall k :: 0 <= k < |words| ==> !IsBlank(words[k]) && ' ' !in words[k]
    ensures Clean(WrapWords(words, max))
    ensures Shown(WrapWords(words, max)) == Flatten(words)
    decreases |words|
  {
    if words != [] {
      var init := words[..|words| - 1];
      var last := words[|words| - 1];
      assert forall k :: 0 <= k < |init| ==> init[k] == words[k];
      WrapWordsKeepText(init, max);
      StepKeepsText(WrapWords(init, max), last, max);
      assert words == init + [last];
      FlattenSnoc(init, last);
    } else {
      assert Flatten(words) == [];
    }
  }

  /** A piece of a joined string is part of it, character by character. */
  lemma {:induction false} CharOfPart(parts: seq<string>, sep: string, j: nat, i: nat)
    requires j < |parts| && i < |parts[j]|
    ensures parts[j][i] in Join(parts, sep)
    decreases |parts|
  {
    if j == 0 {
      if |parts| > 1 {
        assert (parts[0] + sep + Join(parts[1..], sep))[i] == parts[0][i];
      }
    } else {
      CharOfPart(parts[1..], sep, j - 1, i);
      var rest := Join(parts[1..], sep);
      var n := |parts[0] + sep|;
      var k :| 0 <= k < |rest| && rest[k] == parts[j][i];
      assert (parts[0] + sep + rest)[n + k] == rest[k];
    }
  }

  /** Text whose only white space is the space character. */
  predicate SpacedOnly(text: string) {
    forall i :: 0 <= i < |text| ==> text[i] == ' ' || !IsWhiteSpace(text[i])
  }

  lemma WordsOfSpacedOnly(text: string)
    requires SpacedOnly(text)
    ensures forall k :: 0 <= k < |Words(text)| ==> !IsBlank(Words(text)[k])
  {
    var parts := Split(text, " ");
    var words := Words(text);
    forall k | 0 <= k < |words| ensures !IsBlank(words[k]) {
      var w := words[k];
      assert w in parts;
      var j :| 0 <= j < |parts| && parts[j] == w;
      CharOfPart(parts, " ", j, 0);
      assert w[0] != ' ';
    }
  }

  /** For text with at least one word, the chunks hold exactly its
      characters other than spaces, in order. Text holding other white space
      is excluded: a word of tabs met while the line is empty is dropped. */
  lemma WrapKeepsText(text: string, max: nat)
    requires max >= 1
    requires SpacedOnly(text) && RemoveSpaces(text) != ""
    ensures RemoveSpaces(Flatten(Wrap(text, max))) == RemoveSpaces(text)
  {
    var words := Words(text);
    WordsFlatten(text);
    WordsOfSpacedOnly(text);
    WrapWordsKeepText(words, max);
    var st := WrapWords(words, max);
    assert words != [];
    WrapWordsFit(words, max);
    assert !IsBlank(words[0]);
    if !IsBlank(st.current) {
      FlattenSnoc(st.chunks, st.current);
    } else {
      assert st.current == "";
      assert Flatten(st.chunks) + st.current == Flatten(st.chunks);
    }
  }

  /** A trimmed non-empty text starts with a word that is not blank. */
  lemma FirstWordOfTrimmed(s: string)
    requires s != [] && IsTrimmed(s)
    ensures Words(s) != [] && !IsBlank(Words(s)[0])
  {
    var parts := Split(s, " ");
    if |parts| > 1 {
      assert s == parts[0] + " " + Join(parts[1..], " ");
    }
    assert parts[0] != "" && parts[0][0] == s[0];
    assert RemoveEmpty(parts) == [parts[0]] + RemoveEmpty(parts[1..]);
  }

  /** Whatever the title, every chunk Render draws fits the line. */
  lemma RenderChunksFit(text: Option<string>, width: int)
    ensures forall k :: 0 <= k < |Wrap(Safe(text), MaxChars(width))| ==>
      |Wrap(Safe(text), MaxChars(width))[k]| <= MaxChars(width)
  {
    FirstWordOfTrimmed(Safe(text));
    WrapFits(Safe(text), MaxChars(width));
  }

  // --------------------------------------------------------------- layout

  /** new string('═', Math.Max(10, width)). */
  function BorderLine(width: int): (r: string)
    ensures |r| == Max(10, width)
    ensures forall i :: 0 <= i < |r| ==> r[i] == BorderChar
  {
    seq(Max(10, width), _ => BorderChar)
  }

  /** Center: a text shorter than the width gets half the slack, rounded down,
      as leading spaces; a text at least as wide is returned unchanged. */
  function Center(text: string, width: int): (r: string)
    ensures |r| >= |text| && r[|r| - |text|..] == text
    ensures forall i :: 0 <= i < |r| - |text| ==> r[i] == ' '
    ensures |text| >= width ==> r == text
    ensures |text| < width ==> 2 * (|r| - |text|) <= width - |text| <= 2 * (|r| - |text|) + 1
  {
    if |text| >= width then text
    else Spaces((width - |text|) / 2) + text
  }

  /** Row row of each glyph of the chunk. */
  function GlyphRows(chunk: string, row: nat): (r: seq<string>)
    requires row < GlyphHeight
    ensures |r| == |chunk|
  {
    seq(|chunk|, c requires 0 <= c < |chunk| => GetGlyph(chunk[c])[row])
  }

  /** A row of the banner before centring: the chunk's glyph rows joined by
      single spaces. */
  function GlyphLine(chunk: string, row: nat): string
    requires row < GlyphHeight
  {
    Join(GlyphRows(chunk, row), " ")
  }

  /** The first rows lines drawn for a chunk. */
  function ChunkRows(chunk: string, width: int, rows: nat): (r: seq<string>)
    requires rows <= GlyphHeight
    ensures |r| == rows
  {
    if rows == 0 then []
    else ChunkRows(chunk, width, rows - 1) + [Center(GlyphLine(chunk, rows - 1), width)]
  }

  lemma {:induction false} ChunkRowsAt(chunk: string, width: int, rows: nat, row: nat)
    requires row < rows <= GlyphHeight
    ensures ChunkRows(chunk, width, rows)[row] == Center(GlyphLine(chunk, row), width)
    decreases rows
  {
    var prev := ChunkRows(chunk, width, rows - 1);
    if row < rows - 1 {
      ChunkRowsAt(chunk, width, rows - 1, row);
      IndexLeft(prev, [Center(GlyphLine(chunk, rows - 1), width)], row);
    }
  }

  /** The first n blocks of lines, each followed by the separator line sep
      unless it is the last block. */
  function Stack<T>(blocks: seq<seq<T>>, sep: T, n: nat): seq<T>
    requires n <= |blocks|
  {
    if n == 0 then []
    else
      Stack(blocks, sep, n - 1) + blocks[n - 1]
      + (if n < |blocks| then [sep] else [])
  }

  /** The five rows drawn for each chunk. */
  function ChunkBlocks(chunks: seq<string>, width: int): (r: seq<seq<string>>)
    ensures |r| == |chunks|
  {
    seq(|chunks|, k requires 0 <= k < |chunks| => ChunkRows(chunks[k], width, GlyphHeight))
  }

  /** Every block has GlyphHeight lines. */
  predicate Uniform<T>(blocks: seq<seq<T>>) {
    forall k :: 0 <= k < |blocks| ==> |blocks[k]| == GlyphHeight
  }

  /** The lines drawn for the chunks: each chunk's five rows, and a blank line
      after every chunk but the last. */
  function Body(chunks: seq<string>, width: int): seq<string> {
    Stack(ChunkBlocks(chunks, width), "", |chunks|)
  }

  function Borders(n: nat, width: int): (r: seq<string>)
    ensures |r| == n
  {
    seq(n, _ => BorderLine(width))
  }

  /** Everything Render returns for the given chunks. */
  function Layout(chunks: seq<string>, width: int, includeBorder: bool, height: nat): (r: seq<string>)
    ensures !includeBorder ==> r == Body(chunks, width)
    ensures includeBorder ==> |r| == 2 * height + |Body(chunks, width)|
    ensures includeBorder ==> forall i :: 0 <= i < height ==> r[i] == BorderLine(width)
    ensures includeBorder ==> forall i :: |r| - height <= i < |r| ==> r[i] == BorderLine(width)
  {
    var frame := if includeBorder then Borders(height, width) else [];
    frame + Body(chunks, width) + frame
  }

  /** Render: the border lines, then for every chunk its five glyph rows and
      a blank separator line, then the border lines again. */
  method Render(text: Option<string>, width: int, includeBorder: bool, borderHeight: int)
    returns (output: seq<string>)
    ensures output == Layout(Wrap(Safe(text), MaxChars(width)), width, includeBorder, Max(1, borderHeight))
  {
    var safe := Safe(text);
    var chunks := WrapByWord(safe, MaxChars(width));
    output := [];
    var height: nat := Max(1, borderHeight);

    if includeBorder {
      output := AppendBorders(output, height, width);
      NilAppend(Borders(height, width));
    }
    output := DrawChunks(output, chunks, width);
    if includeBorder {
      output := AppendBorders(output, height, width);
    } else {
      AppendNil(output);
    }
  }

  /** The border loop of Render, run before and after the chunks: n border
      lines appended to the output. */
  method AppendBorders(output: seq<string>, n: nat, width: int) returns (r: seq<string>)
    ensures r == output + Borders(n, width)
  {
    r := output;
    for i := 0 to n
      invariant r == output + Borders(i, width)
    {
      BordersStep(i, width);
      ConcatSnoc(output, Borders(i, width), BorderLine(width));
      r := r + [BorderLine(width)];
    }
  }

  /** The chunk loop of Render: every chunk's rows, with a blank line after
      every chunk but the last, appended to the output. */
  method DrawChunks(output: seq<string>, chunks: seq<string>, width: int) returns (r: seq<string>)
    ensures r == output + Body(chunks, width)
  {
    ghost var blocks := ChunkBlocks(chunks, width);
    r := output;
    for index := 0 to |chunks|
      invariant r == output + Stack(blocks, "", index)
    {
      var chunk := chunks[index];
      var rows := DrawChunk(chunk, width);
      assert rows == blocks[index];
      r := r + rows;
      ghost var gap: seq<string> := if index < |chunks| - 1 then [""] else [];
      if index < |chunks| - 1 {
        r := r + [""];
      } else {
        AppendNil(r);
      }
      StackStep(blocks, "", index);
      Assoc4(output, Stack(blocks, "", index), rows, gap);
    }
  }

  /** The row loop of Render for one chunk: each glyph row, centred. */
  method DrawChunk(chunk: string, width: int) returns (rows: seq<string>)
    ensures rows == ChunkRows(chunk, width, GlyphHeight)
  {
    rows := [];
    for row := 0 to GlyphHeight
      invariant rows == ChunkRows(chunk, width, row)
    {
      var builder := BuildGlyphLine(chunk, row);
      ChunkRowsStep(chunk, width, row);
      rows := rows + [Center(builder, width)];
    }
  }

  /** The StringBuilder loop of Render: the row of each glyph, with a space
      before every glyph but the first. */
  method BuildGlyphLine(chunk: string, row: nat) returns (builder: string)
    requires row < GlyphHeight
    ensures builder == GlyphLine(chunk, row)
  {
    builder := "";
    for c := 0 to |chunk|
      invariant builder == Join(GlyphRows(chunk[..c], row), " ")
    {
      GlyphRowsStep(chunk, c, row);
      JoinSnoc(GlyphRows(chunk[..c], row), GetGlyph(chunk[c])[row], " ");
      if c > 0 {
        builder := builder + " ";
      }
      builder := builder + GetGlyph(chunk[c])[row];
    }
    FullSlice(chunk);
  }

  lemma StackStep<T>(blocks: seq<seq<T>>, sep: T, index: nat)
    requires index < |blocks|
    ensures Stack(blocks, sep, index + 1) == Stack(blocks, sep, index)
      + blocks[index] + (if index < |blocks| - 1 then [sep] else [])
  {
  }

  lemma BordersStep(i: nat, width: int)
    ensures Borders(i + 1, width) == Borders(i, width) + [BorderLine(width)]
  {
  }

  lemma GlyphRowsStep(chunk: string, c: nat, row: nat)
    requires c < |chunk| && row < GlyphHeight
    ensures GlyphRows(chunk[..c + 1], row) == GlyphRows(chunk[..c], row) + [GetGlyph(chunk[c])[row]]
  {
  }

  lemma ChunkRowsStep(chunk: string, width: int, row: nat)
    requires row < GlyphHeight
    ensures ChunkRows(chunk, width, row + 1) == ChunkRows(chunk, width, row) + [Center(GlyphLine(chunk, row), width)]
  {
  }

  // --------------------------------------------------- properties of Layout

  lemma {:induction false} StackLength<T>(blocks: seq<seq<T>>, sep: T, n: nat)
    requires n <= |blocks| && Uniform(blocks)
    ensures |Stack(blocks, sep, n)| == if n == |blocks| && n > 0 then 6 * n - 1 else 6 * n
    decreases n
  {
    if n > 0 {
      StackLength(blocks, sep, n - 1);
    }
  }

  /** Block k occupies the six lines from 6 * k: its five lines, then the
      separator unless it is the last block. */
  lemma {:induction false} StackLine<T>(blocks: seq<seq<T>>, sep: T, n: nat, k: nat, row: nat)
    requires n <= |blocks| && Uniform(blocks) && k < n && row <= GlyphHeight
    requires row == GlyphHeight ==> k < |blocks| - 1
    ensures 6 * k + row < |Stack(blocks, sep, n)|
    ensures row < GlyphHeight ==> Stack(blocks, sep, n)[6 * k + row] == blocks[k][row]
    ensures row == GlyphHeight ==> Stack(blocks, sep, n)[6 * k + row] == sep
    decreases n
  {
    StackLength(blocks, sep, n);
    StackLength(blocks, sep, n - 1);
    var prev := Stack(blocks, sep, n - 1);
    var rows := blocks[n - 1];
    var gap: seq<T> := if n < |blocks| then [sep] else [];
    assert Stack(blocks, sep, n) == prev + rows + gap;
    var i := 6 * k + row;
    if k < n - 1 {
      StackLine(blocks, sep, n - 1, k, row);
      IndexLeft(prev + rows, gap, i);
      IndexLeft(prev, rows, i);
    } else if row < GlyphHeight {
      IndexLeft(prev + rows, gap, i);
      IndexRight(prev, rows, i);
    } else {
      IndexRight(prev + rows, gap, i);
    }
  }

  lemma ChunkBlocksUniform(chunks: seq<string>, width: int)
    ensures Uniform(ChunkBlocks(chunks, width))
  {
  }

  /** The number of lines Render returns: the border lines, five per chunk and
      one blank line between consecutive chunks. */
  lemma LayoutLineCount(chunks: seq<string>, width: int, includeBorder: bool, height: nat)
    requires |chunks| >= 1
    ensures |Layout(chunks, width, includeBorder, height)| ==
      (if includeBorder then 2 * height else 0) + 5 * |chunks| + (|chunks| - 1)
  {
    ChunkBlocksUniform(chunks, width);
    StackLength(ChunkBlocks(chunks, width), "", |chunks|);
  }

  /** After the top border, Layout holds the body lines in order. */
  lemma LayoutBodyLine(chunks: seq<string>, width: int, includeBorder: bool, height: nat, j: nat)
    requires j < |Body(chunks, width)|
    ensures (if includeBorder then height else 0) + j < |Layout(chunks, width, includeBorder, height)|
    ensures Layout(chunks, width, includeBorder, height)[(if includeBorder then height else 0) + j]
      == Body(chunks, width)[j]
  {
    var frame := if includeBorder then Borders(height, width) else [];
    var body := Body(chunks, width);
    var i := |frame| + j;
    IndexLeft(frame + body, frame, i);
    IndexRight(frame, body, i);
  }

  /** Row row of chunk k's block, or the separator after it, in the body. */
  lemma BodyChunkLine(chunks: seq<string>, width: int, k: nat, row: nat)
    requires k < |chunks| && row <= GlyphHeight
    requires row == GlyphHeight ==> k < |chunks| - 1
    ensures 6 * k + row < |Body(chunks, width)|
    ensures row < GlyphHeight ==> Body(chunks, width)[6 * k + row] == ChunkRows(chunks[k], width, GlyphHeight)[row]
    ensures row == GlyphHeight ==> Body(chunks, width)[6 * k + row] == ""
  {
    var blocks := ChunkBlocks(chunks, width);
    ChunkBlocksUniform(chunks, width);
    StackLine(blocks, "", |chunks|, k, row);
    assert blocks[k] == ChunkRows(chunks[k], width, GlyphHeight);
  }



  lemma QuestionMarkAndParensTrimmed()
    ensures IsTrimmed("?( )") && !IsBlank("?( )")
  {
    assert !IsWhiteSpace("?( )"[0]);
  }

  lemma SafeOfQuestionMarkAndParens()
    ensures Safe(Some("?( )")) == "?( )"
  {
    var t := "?( )";
    QuestionMarkAndParensTrimmed();
    TrimOfTrimmed(t);
    ToUpperOfUpper(t);
  }

  lemma WordsOfQuestionMarkAndParens()
    ensures Words("?( )") == ["?(", ")"]
  {
    assert Join(["?(", ")"], [' ']) == "?( )";
    SplitJoinChar(["?(", ")"], ' ');
  }

  lemma FirstWordOpensLine()
    ensures Step(WrapState([], ""), "?(", 19) == WrapState([], "?(")
  {
    assert IsBlank("");
  }

  lemma SecondWordJoinsLine()
    ensures Step(WrapState([], "?("), ")", 19) == WrapState([], "?( )")
  {
    assert !IsBlank("?(") by { assert !IsWhiteSpace("?("[0]); }
    assert "?(" + " " + ")" == "?( )";
  }

  lemma WrapWordsOfQuestionMarkAndParens()
    ensures WrapWords(["?(", ")"], 19) == WrapState([], "?( )")
  {
    var words := ["?(", ")"];
    WrapWordsStep(words, 0, 19);
    WrapWordsStep(words, 1, 19);
    assert words[..0] == [] && words[..2] == words && words[0] == "?(" && words[1] == ")";
    FirstWordOpensLine();
    SecondWordJoinsLine();
  }

  lemma FinishOfQuestionMarkAndParens()
    ensures Finish(WrapState([], "?( )")) == ["?( )"]
  {
    assert !IsBlank("?( )") by { assert !IsWhiteSpace("?( )"[0]); }
    assert [] + ["?( )"] == ["?( )"];
  }

  lemma WrapOfQuestionMarkAndParens()
    ensures Wrap("?( )", 19) == ["?( )"]
  {
    WordsOfQuestionMarkAndParens();
    WrapWordsOfQuestionMarkAndParens();
    FinishOfQuestionMarkAndParens();
  }

  lemma GlyphLineOfQuestionMark()
    ensures |GlyphLine("?( )", 1)| > 2 && GlyphLine("?( )", 1)[2] == '?'
  {
    var parts := GlyphRows("?( )", 1);
    GlyphFallback('?');
    assert parts[0] == "# ? #";
    assert GlyphLine("?( )", 1) == parts[0] + " " + Join(parts[1..], " ");
  }

  /** The title "?( )" on a 120-column line without border: one chunk, so five
      lines, and since none of its characters but the space is in the glyph
      table, its rows show the fallback glyph's '?'. */
  lemma RenderQuestionMarkAndParens()
    ensures Wrap(Safe(Some("?( )")), MaxChars(120)) == ["?( )"]
    ensures |Layout(["?( )"], 120, false, 1)| == 5
    ensures '?' in Layout(["?( )"], 120, false, 1)[1]
  {
    SafeOfQuestionMarkAndParens();
    assert MaxChars(120) == 19;
    WrapOfQuestionMarkAndParens();
    LayoutLineCount(["?( )"], 120, false, 1);
    BodyChunkLine(["?( )"], 120, 0, 1);
    LayoutBodyLine(["?( )"], 120, false, 1, 1);
    ChunkRowsAt("?( )", 120, GlyphHeight, 1);
    var line := GlyphLine("?( )", 1);
    GlyphLineOfQuestionMark();
    var r := Center(line, 120);
    assert r[|r| - |line| + 2] == line[2];
  }
}
