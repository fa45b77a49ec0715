/** The notes artifact service: where a presentation's notes file goes, the
    annotated markdown written there (every content slide, then a notes
    section), and the notes read back from a presentation's notes slide.
    PresentationParser.BuildTaskLine is not part of this model: it is the
    parameter taskLine. */
module Notes {
  import opened Wrappers
  import opened Seqs
  import opened Text
  import opened Deck
  import opened Paths

  const NotesHeading: string := "Presentation Notes"
  const NotesHeadingLine: string := "## Presentation Notes"
  const Placeholder: string := "No notes captured yet."
  const PlaceholderLine: string := "- No notes captured yet."
  /** The placeholder in upper case, the form an ordinal case-insensitive
      comparison matches against. */
  const PlaceholderUpper: string := "NO NOTES CAPTURED YET."
  const DefaultExtension: string := ".md"

  // ------------------------------------------------------------ notes path

  /** The extension of the notes file: the source's, or ".md" when it has a
      blank one. */
  function NotesExtension(p: PathParts): (r: string)
    ensures !IsBlank(r)
    ensures !IsBlank(p.extension) ==> r == p.extension
  {
    if IsBlank(p.extension) then
      assert !IsWhiteSpace(DefaultExtension[0]);
      DefaultExtension
    else p.extension
  }

  function NotesFileName(p: PathParts): string {
    p.stem + ".notes" + NotesExtension(p)
  }

  /** GetNotesPath: "<stem>.notes<ext>" in the source's directory, or the bare
      file name when the source has no directory. */
  function GetNotesPath(p: PathParts): (r: string)
    ensures p.directory == [] ==> r == NotesFileName(p)
    ensures p.directory != [] ==> r == Combine(p.directory, NotesFileName(p))
    ensures |r| >= |NotesFileName(p)| && r[|r| - |NotesFileName(p)|..] == NotesFileName(p)
  {
    if p.directory == [] then NotesFileName(p) else Combine(p.directory, NotesFileName(p))
  }

  /** A notes path, when the source has a directory and its stem is not
      rooted, is that directory, a separator unless the directory already
      ends with one, and "<stem>.notes<ext>". */
  lemma NotesPathInDirectory(p: PathParts)
    requires p.directory != [] && (p.stem == [] || p.stem[0] != DirectorySeparator)
    ensures var d := p.directory;
      GetNotesPath(p) == d + (if d[|d| - 1] == DirectorySeparator then [] else [DirectorySeparator])
        + p.stem + ".notes" + NotesExtension(p)
  {
    var name := NotesFileName(p);
    assert name[0] != DirectorySeparator by {
      if p.stem == [] {
        assert name[0] == '.';
      } else {
        assert name[0] == p.stem[0];
      }
    }
    var d := p.directory;
    var sep: string := if d[|d| - 1] == DirectorySeparator then [] else [DirectorySeparator];
    assert d + sep + name == d + sep + p.stem + ".notes" + NotesExtension(p);
  }

  /** When neither the stem nor the extension holds a separator, the file
      name of the notes path is "<stem>.notes<ext>", with ".md" for a blank
      extension. */
  lemma NotesPathFileName(p: PathParts)
    requires DirectorySeparator !in p.stem && DirectorySeparator !in p.extension
    ensures FileName(GetNotesPath(p)) == p.stem + ".notes" + (if IsBlank(p.extension) then ".md" else p.extension)
  {
    var name := NotesFileName(p);
    var ext := NotesExtension(p);
    assert DirectorySeparator !in ".notes";
    assert DirectorySeparator !in ext by {
      if IsBlank(p.extension) {
        assert ext == DefaultExtension;
      }
    }
    NotInAppend(DirectorySeparator, p.stem, ".notes");
    NotInAppend(DirectorySeparator, p.stem + ".notes", ext);
    CombineFileName(p.directory, name);
  }

  // ------------------------------------------------------------ body lines

  /** ToDictionary(o => o.LineIndex) succeeds only when no two option items
      share a line index. */
  predicate DistinctLineIndices(options: seq<OptionItem>) {
    forall i, j :: 0 <= i < j < |options| ==> options[i].lineIndex != options[j].lineIndex
  }

  /** The dictionary lookup by line index: the option item bound to line index,
      if any. */
  function OptionAt(options: seq<OptionItem>, index: int): (r: Option<OptionItem>)
    ensures r.Some? ==> r.value in options && r.value.lineIndex == index
    ensures r.None? ==> forall k :: 0 <= k < |options| ==> options[k].lineIndex != index
  {
    if options == [] then None
    else if options[0].lineIndex == index then Some(options[0])
    else OptionAt(options[1..], index)
  }

  /** With distinct line indices the lookup finds each item at its own index. */
  lemma {:induction false} OptionAtFinds(options: seq<OptionItem>, k: nat)
    requires DistinctLineIndices(options) && k < |options|
    ensures OptionAt(options, options[k].lineIndex) == Some(options[k])
    decreases k
  {
    if k > 0 {
      var rest := options[1..];
      assert DistinctLineIndices(rest) by {
        forall i, j | 0 <= i < j < |rest| ensures rest[i].lineIndex != rest[j].lineIndex {
          assert rest[i] == options[i + 1] && rest[j] == options[j + 1];
        }
      }
      assert rest[k - 1] == options[k];
      OptionAtFinds(rest, k - 1);
    }
  }

  /** RenderBodyLines: the body lines, each line at an option item's line
      index replaced by that item's task line. */
  function RenderBodyLines(slide: TypedSlide, taskLine: OptionItem -> string): (r: seq<string>)
    requires DistinctLineIndices(slide.optionItems)
    ensures |r| == |slide.bodyLines|
    ensures slide.optionItems == [] ==> r == slide.bodyLines
    ensures forall i :: 0 <= i < |r| ==>
      (OptionAt(slide.optionItems, i).None? ==> r[i] == slide.bodyLines[i])
    ensures forall i :: 0 <= i < |r| ==>
      (OptionAt(slide.optionItems, i).Some? ==> r[i] == taskLine(OptionAt(slide.optionItems, i).value))
  {
    if |slide.optionItems| == 0 then slide.bodyLines
    else
      seq(|slide.bodyLines|, i requires 0 <= i < |slide.bodyLines| =>
        match OptionAt(slide.optionItems, i)
        case Some(o) => taskLine(o)
        case None => slide.bodyLines[i])
  }

  /** Line by line: a line with an option item becomes that item's task line,
      and a line with none is kept. */
  lemma RenderBodyLine(slide: TypedSlide, taskLine: OptionItem -> string, i: nat)
    requires DistinctLineIndices(slide.optionItems) && i < |slide.bodyLines|
    ensures forall k :: 0 <= k < |slide.optionItems| && slide.optionItems[k].lineIndex == i ==>
      RenderBodyLines(slide, taskLine)[i] == taskLine(slide.optionItems[k])
    ensures (forall k :: 0 <= k < |slide.optionItems| ==> slide.optionItems[k].lineIndex != i) ==>
      RenderBodyLines(slide, taskLine)[i] == slide.bodyLines[i]
  {
    forall k | 0 <= k < |slide.optionItems| && slide.optionItems[k].lineIndex == i
      ensures RenderBodyLines(slide, taskLine)[i] == taskLine(slide.optionItems[k])
    {
      OptionAtFinds(slide.optionItems, k);
    }
  }

  // ------------------------------------------------------ annotated markdown

  /** The slides written to the notes file: all but main-menu and notes slides. */
  predicate Annotated(slide: TypedSlide) {
    slide.slideType != MainMenuSlide && slide.slideType != NotesSlide
  }

  /** The option items of every written slide have distinct line indices. */
  predicate WellFormed(slides: seq<TypedSlide>) {
    forall k :: 0 <= k < |slides| ==> Annotated(slides[k]) ==> DistinctLineIndices(slides[k].optionItems)
  }

  function HeadingPrefix(slide: TypedSlide): string {
    if slide.slideType == TitleSlide then "#" else "##"
  }

  /** The heading line of a written slide: "# title" for a title slide,
      "## title" otherwise, without trailing white space. */
  function HeadingLine(slide: TypedSlide): (r: string)
    ensures r != [] && r[0] == '#'
    ensures var h := HeadingPrefix(slide) + " " + slide.title;
      |r| <= |h| && r == h[..|r|] && IsBlank(h[|r|..]) && !IsWhiteSpace(r[|r| - 1])
  {
    var h := HeadingPrefix(slide) + " " + slide.title;
    assert !IsWhiteSpace(h[0]);
    TrimEnd(h)
  }

  /** A title that is not blank appears after the prefix, with its trailing
      white space removed. */
  lemma HeadingLineOfTitle(slide: TypedSlide)
    requires !IsBlank(slide.title)
    ensures HeadingLine(slide) == HeadingPrefix(slide) + " " + TrimEnd(slide.title)
  {
    var front := HeadingPrefix(slide) + " ";
    var t := TrimEnd(slide.title);
    var h := front + slide.title;
    assert slide.title[|t|..] == slide.title ==> IsBlank(slide.title);
    var n := |front| + |t|;
    assert h[..n] == front + t by {
      assert slide.title[..|t|] == t;
    }
    assert h[n - 1] == t[|t| - 1];
    assert h[n..] == slide.title[|t|..];
    TrimEndAt(h, n);
  }

  /** A blank title leaves only the prefix: "#" or "##". */
  lemma HeadingLineOfBlankTitle(slide: TypedSlide)
    requires IsBlank(slide.title)
    ensures HeadingLine(slide) == HeadingPrefix(slide)
  {
    var p := HeadingPrefix(slide);
    var h := p + " " + slide.title;
    assert forall i :: |p| <= i < |h| ==> IsWhiteSpace(h[i]) by {
      forall i | |p| <= i < |h| ensures IsWhiteSpace(h[i]) {
        if i > |p| {
          assert h[i] == slide.title[i - |p| - 1];
        }
      }
    }
    assert h[|p|..] == h[|p|..];
    TrimEndAt(h, |p|);
    assert h[..|p|] == p;
  }

  /** What one written slide contributes: its heading, its rendered body
      lines, one blank line. */
  function SlideSection(slide: TypedSlide, taskLine: OptionItem -> string): (r: seq<string>)
    requires DistinctLineIndices(slide.optionItems)
    ensures |r| == |slide.bodyLines| + 2
    ensures r[0] == HeadingLine(slide) && r[|r| - 1] == ""
    ensures r[1..|r| - 1] == RenderBodyLines(slide, taskLine)
  {
    [HeadingLine(slide)] + RenderBodyLines(slide, taskLine) + [""]
  }

  /** The slide sections of the first slides, in order, skipping the slides
      that are not written. */
  function SlideSections(slides: seq<TypedSlide>, taskLine: OptionItem -> string): seq<string>
    requires WellFormed(slides)
  {
    if slides == [] then []
    else
      var init := slides[..|slides| - 1];
      var last := slides[|slides| - 1];
      assert WellFormed(init) by {
        forall k | 0 <= k < |init| ensures Annotated(init[k]) ==> DistinctLineIndices(init[k].optionItems) {
          assert init[k] == slides[k];
        }
      }
      SlideSections(init, taskLine) + (if Annotated(last) then SlideSection(last, taskLine) else [])
  }

  /** The notes section: its heading, then the notes or the placeholder. */
  function NotesSection(notes: seq<string>): seq<string> {
    [NotesHeadingLine] + (if notes == [] then [PlaceholderLine] else Bullets(notes))
  }

  /** The lines of the annotated markdown. */
  function AnnotatedLines(slides: seq<TypedSlide>, notes: seq<string>, taskLine: OptionItem -> string): (r: seq<string>)
    requires WellFormed(slides)
    ensures |r| == |SlideSections(slides, taskLine)| + 1 + (if notes == [] then 1 else |notes|)
    ensures r[|SlideSections(slides, taskLine)|] == NotesHeadingLine
  {
    SlideSections(slides, taskLine) + NotesSection(notes)
  }

  /** BuildAnnotatedMarkdown: the lines joined with the newline. */
  method BuildAnnotatedMarkdown(slides: seq<TypedSlide>, notes: seq<string>, taskLine: OptionItem -> string)
    returns (markdown: string)
    requires WellFormed(slides)
    ensures markdown == Join(AnnotatedLines(slides, notes, taskLine), NewLine)
  {
    var lines := AppendSlides(slides, taskLine);
    lines := lines + [NotesHeadingLine];
    if |notes| == 0 {
      lines := lines + [PlaceholderLine];
    } else {
      lines := AppendBullets(lines, notes);
    }
    AppendAssoc(SlideSections(slides, taskLine), [NotesHeadingLine],
      if notes == [] then [PlaceholderLine] else Bullets(notes));
    markdown := Join(lines, NewLine);
  }

  /** The slide loop of BuildAnnotatedMarkdown. */
  method AppendSlides(slides: seq<TypedSlide>, taskLine: OptionItem -> string) returns (lines: seq<string>)
    requires WellFormed(slides)
    ensures lines == SlideSections(slides, taskLine)
  {
    lines := [];
    for k := 0 to |slides|
      invariant WellFormed(slides[..k])
      invariant lines == SlideSections(slides[..k], taskLine)
    {
      var slide := slides[k];
      SlideSectionsStep(slides, k, taskLine);
      if Annotated(slide) {
        lines := AppendSection(lines, slide, taskLine);
      } else {
        AppendNil(lines);
      }
    }
    FullSlice(slides);
  }

  lemma SlideSectionsStep(slides: seq<TypedSlide>, k: nat, taskLine: OptionItem -> string)
    requires WellFormed(slides) && k < |slides|
    ensures WellFormed(slides[..k]) && WellFormed(slides[..k + 1])
    ensures SlideSections(slides[..k + 1], taskLine) == SlideSections(slides[..k], taskLine)
      + (if Annotated(slides[k]) then SlideSection(slides[k], taskLine) else [])
  {
    PrefixOfPrefix(slides, k, k + 1);
    assert forall j :: 0 <= j < k + 1 ==> slides[..k + 1][j] == slides[j];
  }

  /** One written slide: its heading, the body loop, the blank line. */
  method AppendSection(lines: seq<string>, slide: TypedSlide, taskLine: OptionItem -> string) returns (r: seq<string>)
    requires DistinctLineIndices(slide.optionItems)
    ensures r == lines + SlideSection(slide, taskLine)
  {
    var body := RenderBodyLines(slide, taskLine);
    r := lines + [HeadingLine(slide)];
    for i := 0 to |body|
      invariant r == lines + [HeadingLine(slide)] + body[..i]
    {
      PrefixSnoc(body, i);
      ConcatSnoc(lines + [HeadingLine(slide)], body[..i], body[i]);
      r := r + [body[i]];
    }
    FullSlice(body);
    r := r + [""];
    Assoc4(lines, [HeadingLine(slide)], body, [""]);
  }

  /** Main-menu and notes slides add nothing, and the written slides' sections
      follow one another in slide order. */
  lemma {:induction false} SlideSectionsOfWritten(slides: seq<TypedSlide>, taskLine: OptionItem -> string)
    requires WellFormed(slides)
    ensures WellFormed(Filter(slides, Annotated))
    ensures SlideSections(Filter(slides, Annotated), taskLine) == SlideSections(slides, taskLine)
    decreases |slides|
  {
    var written := Filter(slides, Annotated);
    assert WellFormed(written) by {
      forall k | 0 <= k < |written| ensures DistinctLineIndices(written[k].optionItems) {
        var j :| 0 <= j < |slides| && slides[j] == written[k];
      }
    }
    if slides != [] {
      var init := slides[..|slides| - 1];
      var last := slides[|slides| - 1];
      SnocOfInit(slides);
      FilterSnoc(init, last, Annotated);
      assert WellFormed(init) by {
        forall k | 0 <= k < |init| ensures Annotated(init[k]) ==> DistinctLineIndices(init[k].optionItems) {
          assert init[k] == slides[k];
        }
      }
      SlideSectionsOfWritten(init, taskLine);
      var w := Filter(init, Annotated);
      if Annotated(last) {
        assert written == w + [last];
        PrefixOfSnoc(w, last, |w|);
        FullSlice(w);
      } else {
        assert written == w;
      }
    }
  }

  /** The notes section: its heading, then either the placeholder line or
      one "- note" line per note, in order. */
  lemma NotesSectionLines(notes: seq<string>)
    ensures var ns := NotesSection(notes);
      |ns| == 1 + (if notes == [] then 1 else |notes|)
      && ns[0] == NotesHeadingLine
      && (notes == [] ==> ns[1] == PlaceholderLine)
      && (forall j :: 1 <= j < |ns| && notes != [] ==> ns[j] == BulletPrefix + notes[j - 1])
  {
    var rest := if notes == [] then [PlaceholderLine] else Bullets(notes);
    IndexLeft([NotesHeadingLine], rest, 0);
    if notes == [] {
      IndexRight([NotesHeadingLine], rest, 1);
    }
    forall j | 1 <= j < |NotesSection(notes)| && notes != []
      ensures NotesSection(notes)[j] == BulletPrefix + notes[j - 1]
    {
      IndexRight([NotesHeadingLine], rest, j);
    }
  }

  /** The markdown is the slide sections followed by the notes section. */
  lemma AnnotatedEndsWithNotes(slides: seq<TypedSlide>, notes: seq<string>, taskLine: OptionItem -> string)
    requires WellFormed(slides)
    ensures var lines := AnnotatedLines(slides, notes, taskLine);
      var n := |SlideSections(slides, taskLine)|;
      n <= |lines| && lines[..n] == SlideSections(slides, taskLine) && lines[n..] == NotesSection(notes)
  {
    var front := SlideSections(slides, taskLine);
    PrefixOfAppend(front, NotesSection(notes));
    SuffixOfAppend(front, NotesSection(notes));
  }

  // ----------------------------------------------------------- reading back

  /** The slide ExtractNotesFromPresentation reads: a notes slide, or a slide
      titled "Presentation Notes" in any ASCII case. */
  predicate IsNotesSource(slide: TypedSlide) {
    slide.slideType == NotesSlide || EqualsIgnoreCase(slide.title, NotesHeading)
  }

  /** The note a body line holds: the trimmed line must start with "- ", and
      what follows, trimmed, must be neither blank nor the placeholder. */
  function NoteOf(line: string): (r: Option<string>)
    ensures r.Some? ==> Keepable(r.value)
  {
    var t := Trim(line);
    if StartsWith(t, BulletPrefix) then NoteText(Trim(t[2..])) else None
  }

  /** The text after a bullet is a note unless it is blank or the
      placeholder. */
  function NoteText(note: string): (r: Option<string>)
    ensures r.Some? ==> r.value == note && !IsBlank(note) && !IsPlaceholder(note)
  {
    if !IsBlank(note) && !IsPlaceholder(note) then Some(note) else None
  }

  /** The notes of the body lines, in order. */
  function NotesOf(lines: seq<string>): (r: seq<string>)
    ensures |r| <= |lines|
  {
    if lines == [] then []
    else NotesOf(lines[..|lines| - 1]) + Found(NoteOf(lines[|lines| - 1]))
  }

  /** Every extracted note is trimmed, not blank and not the placeholder. */
  lemma {:induction false} NotesKeepable(lines: seq<string>)
    ensures forall i :: 0 <= i < |NotesOf(lines)| ==> Keepable(NotesOf(lines)[i])
    decreases |lines|
  {
    if lines != [] {
      var init := lines[..|lines| - 1];
      NotesKeepable(init);
      var a := NotesOf(init);
      var b := Found(NoteOf(lines[|lines| - 1]));
      assert NotesOf(lines) == a + b;
      forall i | 0 <= i < |a + b| ensures Keepable((a + b)[i]) {
        if i < |a| {
          IndexLeft(a, b, i);
        } else {
          IndexRight(a, b, i);
        }
      }
    }
  }

  /** ExtractNotesFromPresentation: the notes of the first notes slide, or none
      when there is no such slide. */
  function ExtractNotes(slides: seq<TypedSlide>): (r: seq<string>)
    ensures FirstIndex(slides, IsNotesSource).None? ==> r == []
    ensures FirstIndex(slides, IsNotesSource).Some? ==>
      r == NotesOf(slides[FirstIndex(slides, IsNotesSource).value].bodyLines)
  {
    match FirstIndex(slides, IsNotesSource)
    case None => []
    case Some(k) => NotesOf(slides[k].bodyLines)
  }

  /** A note the round trip keeps. */
  predicate Keepable(note: string) {
    IsTrimmed(note) && !IsBlank(note) && !IsPlaceholder(note)
  }

  /** The placeholder text, in any ASCII case. */
  predicate IsPlaceholder(note: string) {
    ToUpperAscii(note) == PlaceholderUpper
  }

  lemma PlaceholderUpperCase()
    ensures ToUpperAscii(Placeholder) == PlaceholderUpper
  {
  }

  /** IsPlaceholder is the case-insensitive comparison with the
      placeholder. */
  lemma IsPlaceholderMeans(note: string)
    ensures IsPlaceholder(note) <==> EqualsIgnoreCase(note, Placeholder)
  {
    PlaceholderUpperCase();
  }

  lemma NoteOfBullet(note: string)
    requires Keepable(note)
    ensures NoteOf(BulletPrefix + note) == Some(note)
  {
    var line := BulletPrefix + note;
    assert note != [];
    assert line[|line| - 1] == note[|note| - 1];
    assert !IsWhiteSpace(line[0]);
    TrimOfTrimmed(line);
    assert line[..2] == BulletPrefix;
    assert line[2..] == note;
    TrimOfTrimmed(note);
  }

  /** A trimmed line whose second character is not a space is no bullet. */
  lemma NotABulletLine(line: string)
    requires IsTrimmed(line) && |line| >= 2 && line[1] != ' '
    ensures !StartsWith(Trim(line), BulletPrefix)
  {
    TrimOfTrimmed(line);
    assert line[..2][1] == line[1];
  }

  /** A line that is no bullet once trimmed holds no note. */
  lemma NoteOfNonBullet(line: string)
    requires !StartsWith(Trim(line), BulletPrefix)
    ensures NoteOf(line) == None
  {
  }

  /** A bullet whose text is the placeholder, in any case, holds no note. */
  lemma NoteOfPlaceholderBullet(text: string)
    requires IsTrimmed(text) && IsPlaceholder(text)
    ensures NoteOf(BulletPrefix + text) == None
  {
    var line := BulletPrefix + text;
    assert |text| == |ToUpperAscii(text)| == |PlaceholderUpper|;
    assert line[|line| - 1] == text[|text| - 1];
    assert !IsWhiteSpace(line[0]);
    TrimOfTrimmed(line);
    assert line[..2] == BulletPrefix;
    assert line[2..] == text;
    TrimOfTrimmed(text);
  }

  lemma NoteOfHeading()
    ensures NoteOf(NotesHeadingLine) == None
  {
    assert NotesHeadingLine[0] == '#' && NotesHeadingLine[1] == '#';
    assert NotesHeadingLine[|NotesHeadingLine| - 1] == 's';
    NotABulletLine(NotesHeadingLine);
    NoteOfNonBullet(NotesHeadingLine);
  }

  lemma PlaceholderLineIsBullet()
    ensures PlaceholderLine == BulletPrefix + Placeholder
  {
  }

  lemma NoteOfPlaceholder()
    ensures NoteOf(PlaceholderLine) == None
  {
    assert Placeholder[0] == 'N' && Placeholder[|Placeholder| - 1] == '.';
    PlaceholderUpperCase();
    PlaceholderLineIsBullet();
    NoteOfPlaceholderBullet(Placeholder);
  }

  lemma NotesOfSnoc(lines: seq<string>, x: string)
    ensures NotesOf(lines + [x]) == NotesOf(lines) + Found(NoteOf(x))
  {
    PrefixOfSnoc(lines, x, |lines|);
    FullSlice(lines);
  }

  lemma {:induction false} NotesOfAppend(a: seq<string>, b: seq<string>)
    ensures NotesOf(a + b) == NotesOf(a) + NotesOf(b)
    decreases |b|
  {
    if b == [] {
      AppendNil(a);
      AppendNil(NotesOf(a));
    } else {
      var init := b[..|b| - 1];
      var x := b[|b| - 1];
      SnocOfInit(b);
      ConcatSnoc(a, init, x);
      NotesOfSnoc(a + init, x);
      NotesOfAppend(a, init);
      NotesOfSnoc(init, x);
      var tail := Found(NoteOf(x));
      AppendAssoc(NotesOf(a), NotesOf(init), tail);
    }
  }

  lemma {:induction false} NotesOfBullets(notes: seq<string>)
    requires forall i :: 0 <= i < |notes| ==> Keepable(notes[i])
    ensures NotesOf(Bullets(notes)) == notes
    decreases |notes|
  {
    if notes != [] {
      var init := notes[..|notes| - 1];
      var x := notes[|notes| - 1];
      assert Bullets(notes) == Bullets(init) + [BulletPrefix + x];
      NotesOfSnoc(Bullets(init), BulletPrefix + x);
      NotesOfBullets(init);
      NoteOfBullet(x);
      SnocOfInit(notes);
    }
  }

  /** Notes that are trimmed, not blank and not the placeholder come back
      unchanged from the notes section they were written to, including the
      empty list, whose placeholder line is dropped again. */
  lemma NotesRoundTrip(notes: seq<string>)
    requires forall i :: 0 <= i < |notes| ==> Keepable(notes[i])
    ensures NotesOf(NotesSection(notes)) == notes
  {
    var tail := if notes == [] then [PlaceholderLine] else Bullets(notes);
    NotesOfAppend([NotesHeadingLine], tail);
    NotesOfSnoc([], NotesHeadingLine);
    NoteOfHeading();
    if notes == [] {
      NotesOfSnoc([], PlaceholderLine);
      NoteOfPlaceholder();
    } else {
      NotesOfBullets(notes);
    }
  }

  /** The same at the level of a presentation: when the first notes slide
      holds the notes section, extraction returns the notes. */
  lemma ExtractWrittenNotes(slides: seq<TypedSlide>, notes: seq<string>)
    requires forall i :: 0 <= i < |notes| ==> Keepable(notes[i])
    requires FirstIndex(slides, IsNotesSource).Some?
    requires slides[FirstIndex(slides, IsNotesSource).value].bodyLines == NotesSection(notes)
    ensures ExtractNotes(slides) == notes
  {
    NotesRoundTrip(notes);
  }
}
