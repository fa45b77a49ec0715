/** The markup parser of src/ASCzee/PresentationParser.cs. Line endings are
    normalised to "\n" and the document is split into blocks wherever
    "\n---\n" occurs, empty blocks dropped: a "---" on the first or last line,
    or one with other characters on its line, does not split. In each block the first
    "# " line with a non-blank remainder gives the slide title, the remaining
    lines (less the blank "# " lines met before the title) form the content,
    and blank lines are trimmed from both ends of the content. */
module Parser {
  import opened Wrappers
  import opened Seqs
  import opened Text

  /** Slide.cs: a title and the content text. */
  datatype Slide = Slide(title: string, content: string)

  /** Presentation.cs: the slides and the presentation title. */
  datatype Presentation = Presentation(slides: seq<Slide>, title: string)

  const SlideSeparator: string := "---"
  const TitlePrefix: string := "# "

  /** The separator a block ends at, once line endings are normalised. */
  const BlockSeparator: string := "\n" + SlideSeparator + "\n"

  /** The trimmed remainder of a "# " line. */
  function HeadingText(line: string): string
    requires StartsWith(line, TitlePrefix)
  {
    Trim(line[|TitlePrefix|..])
  }

  /** A line that supplies the title: it starts with "# " and its trimmed
      remainder is not empty. */
  predicate IsTitleLine(line: string) {
    StartsWith(line, TitlePrefix) && HeadingText(line) != ""
  }

  /** The position of the first title line, if any. */
  function TitleIndex(lines: seq<string>): (r: Option<nat>)
    ensures r.Some? ==> r.value < |lines| && IsTitleLine(lines[r.value])
    ensures r.Some? ==> forall j :: 0 <= j < r.value ==> !IsTitleLine(lines[j])
    ensures r.None? ==> forall j :: 0 <= j < |lines| ==> !IsTitleLine(lines[j])
  {
    FirstIndex(lines, IsTitleLine)
  }

  /** A line that does not start with "# ". */
  predicate IsPlainLine(line: string) {
    !StartsWith(line, TitlePrefix)
  }

  /** The lines that do not start with "# ", in their order. */
  function WithoutHeadingLines(lines: seq<string>): (r: seq<string>)
    ensures |r| <= |lines|
    ensures forall k :: 0 <= k < |r| ==> !StartsWith(r[k], TitlePrefix)
    ensures (forall k :: 0 <= k < |lines| ==> !StartsWith(lines[k], TitlePrefix)) ==> r == lines
  {
    Filter(lines, IsPlainLine)
  }

  /** The slide title: the text of the first title line, or empty. */
  function SlideTitle(lines: seq<string>): string {
    match TitleIndex(lines)
    case None => ""
    case Some(t) => HeadingText(lines[t])
  }

  /** The content lines before trimming: every line after the title line, and
      before it every line that is not a "# " line. */
  function ContentLines(lines: seq<string>): seq<string> {
    match TitleIndex(lines)
    case None => WithoutHeadingLines(lines)
    case Some(t) => WithoutHeadingLines(lines[..t]) + lines[t + 1..]
  }

  function TrimLeadingBlankLines(lines: seq<string>): (r: seq<string>)
    ensures |r| <= |lines| && r == lines[|lines| - |r|..]
    ensures forall k :: 0 <= k < |lines| - |r| ==> IsBlank(lines[k])
    ensures r != [] ==> !IsBlank(r[0])
  {
    if lines != [] && IsBlank(lines[0]) then TrimLeadingBlankLines(lines[1..]) else lines
  }

  function TrimTrailingBlankLines(lines: seq<string>): (r: seq<string>)
    ensures |r| <= |lines| && r == lines[..|r|]
    ensures forall k :: |r| <= k < |lines| ==> IsBlank(lines[k])
    ensures r != [] ==> !IsBlank(r[|r| - 1])
  {
    if lines != [] && IsBlank(lines[|lines| - 1]) then TrimTrailingBlankLines(lines[..|lines| - 1]) else lines
  }

  /** The lines with the blank ones at either end removed; neither end of
      the result is a blank line (TrimBlankLinesSlice says what is kept). */
  function TrimBlankLines(lines: seq<string>): (r: seq<string>)
    ensures |r| <= |lines|
    ensures r == [] || (!IsBlank(r[0]) && !IsBlank(r[|r| - 1]))
  {
    TrimTrailingBlankLines(TrimLeadingBlankLines(lines))
  }

  /** How many blank lines TrimBlankLines removes from the front. */
  function LeadingBlankCount(lines: seq<string>): nat {
    |lines| - |TrimLeadingBlankLines(lines)|
  }

  /** What TrimBlankLines keeps is a contiguous run of its input, in order,
      and every line outside that run is blank. */
  lemma TrimBlankLinesSlice(lines: seq<string>)
    ensures LeadingBlankCount(lines) + |TrimBlankLines(lines)| <= |lines|
    ensures TrimBlankLines(lines) == lines[LeadingBlankCount(lines)..LeadingBlankCount(lines) + |TrimBlankLines(lines)|]
    ensures forall k :: 0 <= k < LeadingBlankCount(lines) ==> IsBlank(lines[k])
    ensures forall k :: LeadingBlankCount(lines) + |TrimBlankLines(lines)| <= k < |lines| ==> IsBlank(lines[k])
  {
    var inner := TrimLeadingBlankLines(lines);
    var r := TrimTrailingBlankLines(inner);
    var lo := |lines| - |inner|;
    SliceOfSuffix(lines, lo, |r|);
    forall k | lo + |r| <= k < |lines| ensures IsBlank(lines[k]) {
      assert lines[k] == inner[k - lo];
    }
  }

  /** Every content line is a line of the block. */
  lemma ContentLinesFromBlock(lines: seq<string>)
    ensures forall k :: 0 <= k < |ContentLines(lines)| ==> ContentLines(lines)[k] in lines
  {
    match TitleIndex(lines)
    case None =>
    case Some(t) =>
      FilterPrefixWithin(lines, t, IsPlainLine);
      WithinSuffix(lines, t + 1);
      WithinAppend(WithoutHeadingLines(lines[..t]), lines[t + 1..], lines);
  }

  /** Every line TrimBlankLines keeps is one of its input lines. */
  lemma TrimBlankLinesFrom(lines: seq<string>)
    ensures forall k :: 0 <= k < |TrimBlankLines(lines)| ==> TrimBlankLines(lines)[k] in lines
  {
    TrimBlankLinesSlice(lines);
    var lo := LeadingBlankCount(lines);
    forall k | 0 <= k < |TrimBlankLines(lines)| ensures TrimBlankLines(lines)[k] in lines {
      assert TrimBlankLines(lines)[k] == lines[lo + k];
    }
  }

  /** The title is the text of the first title line, or empty when no line
      is a title line. */
  lemma SlideTitleOfLines(lines: seq<string>)
    ensures SlideTitle(lines) == "" <==> forall k :: 0 <= k < |lines| ==> !IsTitleLine(lines[k])
    ensures SlideTitle(lines) != "" ==>
      exists k :: 0 <= k < |lines| && IsTitleLine(lines[k])
        && (forall j :: 0 <= j < k ==> !IsTitleLine(lines[j])) && SlideTitle(lines) == HeadingText(lines[k])
  {
  }

  /** The trimmed content lines of a block hold no line feed, so joining and
      splitting them at line feeds gives them back. */
  lemma KeptLinesRoundTrip(block: string)
    ensures var kept := TrimBlankLines(ContentLines(Split(block, "\n")));
      kept != [] ==> Split(Join(kept, NewLine), "\n") == kept
  {
    var lines := Split(block, "\n");
    var kept := TrimBlankLines(ContentLines(lines));
    ContentLinesFromBlock(lines);
    TrimBlankLinesFrom(ContentLines(lines));
    forall k | 0 <= k < |lines| ensures '\n' !in lines[k] {
      AbsentChar(lines[k], '\n');
    }
    assert forall k :: 0 <= k < |kept| ==> '\n' !in kept[k];
    if kept != [] {
      SplitJoinChar(kept, '\n');
    }
  }

  /** The slide a block denotes: the title is the text of the block's first
      title line, or empty when it has none, and the content is the trimmed
      content lines, which splitting the content at line feeds gives back. */
  function SlideOf(block: string): (r: Slide)
    ensures var lines := Split(block, "\n");
      r.title == "" <==> forall k :: 0 <= k < |lines| ==> !IsTitleLine(lines[k])
    ensures var lines := Split(block, "\n");
      TitleIndex(lines).Some? ==> r.title == HeadingText(lines[TitleIndex(lines).value])
    ensures var kept := TrimBlankLines(ContentLines(Split(block, "\n")));
      (kept == [] ==> r.content == "") && (kept != [] ==> Split(r.content, "\n") == kept)
  {
    var lines := Split(block, "\n");
    var kept := TrimBlankLines(ContentLines(lines));
    SlideTitleOfLines(lines);
    KeptLinesRoundTrip(block);
    Slide(SlideTitle(lines), Join(kept, NewLine))
  }

  lemma WithoutHeadingLinesSnoc(lines: seq<string>, x: string)
    ensures WithoutHeadingLines(lines + [x]) ==
      WithoutHeadingLines(lines) + (if StartsWith(x, TitlePrefix) then [] else [x])
  {
    FilterSnoc(lines, x, IsPlainLine);
  }

  /** A title already found stays the title when a line is appended. */
  lemma TitleIndexKept(seen: seq<string>, x: string)
    requires TitleIndex(seen).Some?
    ensures TitleIndex(seen + [x]) == TitleIndex(seen)
  {
    FirstIndexKept(seen, x, IsTitleLine);
  }

  /** Without a title so far, the appended line is the title line if it
      qualifies. */
  lemma TitleIndexOfAppended(seen: seq<string>, x: string)
    requires TitleIndex(seen).None?
    ensures TitleIndex(seen + [x]) == if IsTitleLine(x) then Some(|seen|) else None
  {
    FirstIndexOfAppended(seen, x, IsTitleLine);
  }

  lemma ContentAfterTitle(seen: seq<string>, x: string, t: nat)
    requires TitleIndex(seen) == Some(t)
    ensures ContentLines(seen + [x]) == ContentLines(seen) + [x]
  {
    TitleIndexKept(seen, x);
    PrefixOfSnoc(seen, x, t);
    SliceSnoc(seen, x, t + 1);
    ConcatSnoc(WithoutHeadingLines(seen[..t]), seen[t + 1..], x);
  }

  lemma ContentBeforeTitle(seen: seq<string>, x: string)
    requires TitleIndex(seen).None?
    ensures ContentLines(seen + [x]) ==
      if IsTitleLine(x) then ContentLines(seen)
      else WithoutHeadingLines(seen) + (if StartsWith(x, TitlePrefix) then [] else [x])
  {
    PrefixOfSnoc(seen, x, |seen|);
    FullSlice(seen);
    WithoutHeadingLinesSnoc(seen, x);
  }

  /** The title is empty exactly while no title line has been seen. */
  lemma SlideTitleEmpty(seen: seq<string>)
    ensures SlideTitle(seen) == "" <==> TitleIndex(seen).None?
  {
  }

  /** A step of the scan in ParseSlide that sets the title: with no title so
      far, a "# " line gives the title (empty when its remainder is blank) and
      is not content. */
  lemma ScanHeadingStep(seen: seq<string>, x: string)
    requires SlideTitle(seen) == "" && StartsWith(x, TitlePrefix)
    ensures SlideTitle(seen + [x]) == HeadingText(x)
    ensures ContentLines(seen + [x]) == ContentLines(seen)
  {
    SlideTitleEmpty(seen);
    TitleIndexOfAppended(seen, x);
    ContentBeforeTitle(seen, x);
  }

  /** Any other step of the scan keeps the title and appends the line to the
      content. */
  lemma ScanContentStep(seen: seq<string>, x: string)
    requires !(SlideTitle(seen) == "" && StartsWith(x, TitlePrefix))
    ensures SlideTitle(seen + [x]) == SlideTitle(seen)
    ensures ContentLines(seen + [x]) == ContentLines(seen) + [x]
  {
    SlideTitleEmpty(seen);
    var ext := seen + [x];
    match TitleIndex(seen)
    case Some(t) =>
      TitleIndexKept(seen, x);
      ContentAfterTitle(seen, x, t);
      assert ext[t] == seen[t];
    case None =>
      TitleIndexOfAppended(seen, x);
      ContentBeforeTitle(seen, x);
  }

  /** The trimming loops at the end of ParseSlide: blank lines are removed
      from the front, then from the back, one at a time. */
  method RemoveBlankEdges(lines: seq<string>) returns (r: seq<string>)
    ensures r == TrimBlankLines(lines)
  {
    r := lines;
    while |r| > 0 && IsBlank(r[0])
      invariant TrimLeadingBlankLines(r) == TrimLeadingBlankLines(lines)
      decreases |r|
    {
      r := r[1..];
    }
    ghost var leading := r;
    while |r| > 0 && IsBlank(r[|r| - 1])
      invariant TrimTrailingBlankLines(r) == TrimTrailingBlankLines(leading)
      decreases |r|
    {
      r := r[..|r| - 1];
    }
  }

  /** The foreach loop of ParseSlide: while no title is set, a "# " line sets
      it (and is not content); every other line is appended to the content. */
  method ScanLines(lines: seq<string>) returns (title: string, contentLines: seq<string>)
    ensures title == SlideTitle(lines) && contentLines == ContentLines(lines)
  {
    title := "";
    contentLines := [];
    for i := 0 to |lines|
      invariant title == SlideTitle(lines[..i])
      invariant contentLines == ContentLines(lines[..i])
    {
      var line := lines[i];
      ghost var seen := lines[..i];
      PrefixSnoc(lines, i);
      if |title| == 0 && StartsWith(line, TitlePrefix) {
        ScanHeadingStep(seen, line);
        title := Trim(line[|TitlePrefix|..]);
      } else {
        ScanContentStep(seen, line);
        contentLines := contentLines + [line];
      }
    }
    FullSlice(lines);
  }

  /** ParseSlide walks the block line by line as the source does, then trims
      the blank lines at both ends of the content. */
  method ParseSlide(block: string) returns (slide: Slide)
    ensures slide == SlideOf(block)
  {
    var lines := Split(block, "\n");
    var title, contentLines := ScanLines(lines);
    contentLines := RemoveBlankEdges(contentLines);
    slide := Slide(title, Join(contentLines, NewLine));
  }

  /** The blocks of a document: its pieces between separator lines, once line
      endings are normalised, with the empty pieces dropped. */
  function Blocks(markup: string): (r: seq<string>)
    ensures |r| <= |Split(ReplaceLineEndings(markup), BlockSeparator)|
    ensures forall k :: 0 <= k < |r| ==> r[k] != "" && IndexOf(r[k], BlockSeparator).None?
    ensures var pieces := Split(ReplaceLineEndings(markup), BlockSeparator);
      forall k :: 0 <= k < |pieces| ==> pieces[k] != "" ==> pieces[k] in r
  {
    RemoveEmpty(Split(ReplaceLineEndings(markup), BlockSeparator))
  }

  lemma SeparatorLineFeeds()
    ensures OnlyLineFeeds(BlockSeparator)
  {
    var s := BlockSeparator;
    assert s == ['\n', '-', '-', '-', '\n'];
    assert forall i :: 0 <= i < 5 ==> s[i] == '\n' || s[i] == '-';
  }

  /** A block that the next separator cuts right at its end: "\n---\n" first
      occurs in block + "\n---\n" just after the block. */
  predicate EndsBeforeSeparator(block: string) {
    CutAtEnd(block, BlockSeparator)
  }

  /** Blocks joined with the separator come back as those blocks, when each is
      non-empty with only line feeds as line breaks, each but the last ends
      before the separator, and the last holds none. */
  lemma BlocksOfJoin(blocks: seq<string>)
    requires |blocks| >= 1
    requires forall k :: 0 <= k < |blocks| ==> blocks[k] != "" && OnlyLineFeeds(blocks[k])
    requires forall k :: 0 <= k < |blocks| - 1 ==> EndsBeforeSeparator(blocks[k])
    requires IndexOf(blocks[|blocks| - 1], BlockSeparator).None?
    ensures Blocks(Join(blocks, BlockSeparator)) == blocks
  {
    var m := Join(blocks, BlockSeparator);
    SeparatorLineFeeds();
    OnlyLineFeedsJoin(blocks, BlockSeparator);
    ReplaceLineEndingsKeepsLineFeeds(m);
    SplitOfJoin(blocks, BlockSeparator);
  }

  /** Parse: a null document is an ArgumentNullException; otherwise one slide
      per block, and the presentation title is the first slide's title. */
  function Parse(markup: Option<string>): (r: Result<Presentation>)
    ensures markup.None? <==> r == Err(ArgumentNull)
    ensures markup.Some? ==> r.Ok? && |r.value.slides| == |Blocks(markup.value)|
    ensures markup.Some? ==> forall k :: 0 <= k < |r.value.slides| ==> r.value.slides[k] == SlideOf(Blocks(markup.value)[k])
    ensures markup.Some? ==> r.value.title == if r.value.slides == [] then "" else r.value.slides[0].title
  {
    match markup
    case None => Err(ArgumentNull)
    case Some(m) =>
      var blocks := Blocks(m);
      var slides := seq(|blocks|, k requires 0 <= k < |blocks| => SlideOf(blocks[k]));
      Ok(Presentation(slides, if |slides| > 0 then slides[0].title else ""))
  }

  /** A document made of such blocks parses to one slide per block, in order. */
  lemma ParseOfJoin(blocks: seq<string>)
    requires |blocks| >= 1
    requires forall k :: 0 <= k < |blocks| ==> blocks[k] != "" && OnlyLineFeeds(blocks[k])
    requires forall k :: 0 <= k < |blocks| - 1 ==> EndsBeforeSeparator(blocks[k])
    requires IndexOf(blocks[|blocks| - 1], BlockSeparator).None?
    ensures var p := Parse(Some(Join(blocks, BlockSeparator))).value;
      |p.slides| == |blocks| && (forall k :: 0 <= k < |blocks| ==> p.slides[k] == SlideOf(blocks[k]))
      && p.title == SlideOf(blocks[0]).title
  {
    BlocksOfJoin(blocks);
  }

  /** A block without any "# " line has an empty title and keeps all its lines
      as content. */
  lemma UntitledBlock(lines: seq<string>)
    requires forall k :: 0 <= k < |lines| ==> !StartsWith(lines[k], TitlePrefix)
    ensures SlideTitle(lines) == "" && ContentLines(lines) == lines
  {
  }

  /** Once the title is set, later "# " lines stay in the content, and the
      content ends with every line after the title line. */
  lemma LinesAfterTitleAreContent(lines: seq<string>, t: nat)
    requires TitleIndex(lines) == Some(t)
    ensures SlideTitle(lines) == HeadingText(lines[t])
    ensures |ContentLines(lines)| >= |lines| - t - 1
    ensures ContentLines(lines)[|ContentLines(lines)| - (|lines| - t - 1)..] == lines[t + 1..]
  {
  }

  /** The empty document has no slides and an empty title. */
  lemma ParseEmpty()
    ensures Parse(Some("")) == Ok(Presentation([], ""))
  {
    assert IndexOf("", BlockSeparator) == None;
    assert Split("", BlockSeparator) == [""];
  }

  /** A non-empty document without separator lines makes exactly one slide. */
  lemma {:induction false} ParseWithoutSeparator(markup: string)
    requires ReplaceLineEndings(markup) != ""
    requires IndexOf(ReplaceLineEndings(markup), BlockSeparator).None?
    ensures |Parse(Some(markup)).value.slides| == 1
    ensures Parse(Some(markup)).value.slides[0] == SlideOf(ReplaceLineEndings(markup))
  {
    var n := ReplaceLineEndings(markup);
    assert Split(n, BlockSeparator) == [n];
    assert RemoveEmpty([n]) == [n] + RemoveEmpty([]);
  }

  /** Line endings are normalised first, so a document parses as its normalised
      form does. */
  lemma ParseNormalised(markup: string)
    ensures Parse(Some(markup)) == Parse(Some(ReplaceLineEndings(markup)))
  {
    ReplaceLineEndingsIdempotent(markup);
  }

  /** The same lines joined with CRLF or with LF parse to the same presentation. */
  lemma ParseIgnoresLineEndingStyle(lines: seq<string>)
    requires forall k :: 0 <= k < |lines| ==> NoLineBreaks(lines[k])
    ensures Parse(Some(Join(lines, "\r\n"))) == Parse(Some(Join(lines, "\n")))
  {
    ReplaceLineEndingsOfJoin(lines, "\r\n");
    ReplaceLineEndingsOfJoin(lines, "\n");
  }
}
