/** The song prompt generator: from the title and standard slides it takes
    at most six highlights (body lines) and six chosen priorities (selected
    option items), from the notes at most six non-blank ones, and lays them
    out as a prompt of labelled sections between fixed opening and closing
    lines. */
module SongPrompt {
  import opened Wrappers
  import opened Seqs
  import opened Text
  import opened Deck

  const Cap: nat := 6

  const ChecklistPrefix: string := "- ["

  // ------------------------------------------------------------ selections

  /** The slides the prompt draws on. */
  predicate IsContent(slide: TypedSlide) {
    slide.slideType == TitleSlide || slide.slideType == StandardSlide
  }

  function OptionsOf(slide: TypedSlide): seq<OptionItem> {
    slide.optionItems
  }

  function BodyOf(slide: TypedSlide): seq<string> {
    slide.bodyLines
  }

  predicate IsSelected(o: OptionItem) {
    o.isSelected
  }

  function TextOf(o: OptionItem): string {
    o.text
  }

  /** A body line that is a highlight: not blank, and not a checklist line
      ("- [" after leading white space). */
  predicate IsHighlight(line: string) {
    !IsBlank(line) && !StartsWith(TrimStart(line), ChecklistPrefix)
  }

  predicate IsNonBlank(note: string) {
    !IsBlank(note)
  }

  function ContentSlides(slides: seq<TypedSlide>): seq<TypedSlide> {
    Filter(slides, IsContent)
  }

  /** Every option item of the content slides that is selected, in order. */
  function SelectedTexts(slides: seq<TypedSlide>): seq<string> {
    Map(Filter(FlatMap(ContentSlides(slides), OptionsOf), IsSelected), TextOf)
  }

  /** Every highlight of the content slides, in slide and line order. */
  function AllHighlights(slides: seq<TypedSlide>): seq<string> {
    Filter(FlatMap(ContentSlides(slides), BodyOf), IsHighlight)
  }

  function SelectedItems(slides: seq<TypedSlide>): (r: seq<string>)
    ensures |r| <= Cap && |r| <= |SelectedTexts(slides)|
    ensures r == SelectedTexts(slides)[..|r|]
    ensures |r| == Cap || r == SelectedTexts(slides)
  {
    Take(SelectedTexts(slides), Cap)
  }

  function Highlights(slides: seq<TypedSlide>): (r: seq<string>)
    ensures |r| <= Cap
    ensures forall i :: 0 <= i < |r| ==> IsHighlight(r[i])
    ensures |r| <= |AllHighlights(slides)|
    ensures r == AllHighlights(slides)[..|r|]
    ensures |r| == Cap || r == AllHighlights(slides)
  {
    Take(AllHighlights(slides), Cap)
  }

  function NoteHighlights(notes: seq<string>): (r: seq<string>)
    ensures |r| <= Cap
    ensures forall i :: 0 <= i < |r| ==> !IsBlank(r[i])
    ensures |r| <= |Filter(notes, IsNonBlank)|
    ensures r == Filter(notes, IsNonBlank)[..|r|]
    ensures |r| == Cap || r == Filter(notes, IsNonBlank)
  {
    Take(Filter(notes, IsNonBlank), Cap)
  }

  /** Each chosen priority is the text of a selected option item of a title or
      standard slide. */
  lemma SelectedItemsOrigin(slides: seq<TypedSlide>, i: nat)
    requires i < |SelectedItems(slides)|
    ensures exists k, j ::
      && 0 <= k < |slides| && IsContent(slides[k]) && 0 <= j < |slides[k].optionItems|
      && slides[k].optionItems[j].isSelected && slides[k].optionItems[j].text == SelectedItems(slides)[i]
  {
    var content := ContentSlides(slides);
    var selected := Filter(FlatMap(content, OptionsOf), IsSelected);
    var o := selected[i];
    assert SelectedItems(slides)[i] == o.text;
    FlatMapMember(content, OptionsOf, o);
    var c :| 0 <= c < |content| && o in content[c].optionItems;
    var k :| 0 <= k < |slides| && slides[k] == content[c];
    var j :| 0 <= j < |slides[k].optionItems| && slides[k].optionItems[j] == o;
  }

  /** A slide that is neither a title nor a standard slide contributes no
      highlight and no priority, wherever it is. */
  lemma NonContentIgnored(before: seq<TypedSlide>, slide: TypedSlide, after: seq<TypedSlide>)
    requires !IsContent(slide)
    ensures SelectedItems(before + [slide] + after) == SelectedItems(before + after)
    ensures Highlights(before + [slide] + after) == Highlights(before + after)
  {
    FilterAppend(before + [slide], after, IsContent);
    FilterSnoc(before, slide, IsContent);
    AppendNil(Filter(before, IsContent));
    FilterAppend(before, after, IsContent);
  }

  // ---------------------------------------------------------------- prompt

  /** The fixed lines of the prompt: the two opening instructions, the line
      that introduces the highlights, the three section headings and the
      closing instruction. */
  datatype Wording = Wording(
    instruction: string,
    tone: string,
    highlightsIntro: string,
    priorities: string,
    presenterNotes: string,
    customization: string,
    closing: string)

  /** The wording the generator uses. */
  const Fixed: Wording := Wording(
    "Write a motivational meeting summary song with a clear chorus and two short verses.",
    "Use a positive, collaborative tone suitable for a team recap.",
    "Incorporate the following presentation highlights:",
    "Include these chosen priorities:",
    "Reflect these presenter notes:",
    "Additional customization from presenter:",
    "Keep the output concise and suitable for pasting into suno.com.")

  function GenreLine(genre: string): string {
    "Genre preference: " + genre + "."
  }

  function Opening(w: Wording, genre: string): seq<string> {
    [w.instruction, w.tone, GenreLine(genre), w.highlightsIntro]
  }

  /** A heading and its bullet lines, or nothing for an empty list. */
  function Section(heading: string, items: seq<string>): (r: seq<string>)
    ensures items == [] ==> r == []
    ensures items != [] ==> |r| == |items| + 1 && r[0] == heading && r[1..] == Bullets(items)
  {
    if items == [] then [] else [heading] + Bullets(items)
  }

  /** A customization counts when it is present and not blank. */
  predicate HasCustomization(customization: Option<string>) {
    customization.Some? && !IsBlank(customization.value)
  }

  function CustomizationSection(w: Wording, customization: Option<string>): seq<string> {
    if HasCustomization(customization) then [w.customization, BulletPrefix + Trim(customization.value)] else []
  }

  /** The opening lines and one "- highlight" line per highlight. */
  function PromptHead(w: Wording, genre: string, highlights: seq<string>): seq<string> {
    Opening(w, genre) + Bullets(highlights)
  }

  /** The three optional sections, in order. */
  function PromptSections(w: Wording, selected: seq<string>, noteHighlights: seq<string>,
                          customization: Option<string>): seq<string> {
    Section(w.priorities, selected) + Section(w.presenterNotes, noteHighlights)
    + CustomizationSection(w, customization)
  }

  /** The lines of the prompt. */
  function PromptLines(w: Wording, slides: seq<TypedSlide>, notes: seq<string>, genre: string,
                       customization: Option<string>): (r: seq<string>)
    ensures |r| == 4 + |Highlights(slides)|
      + (if SelectedItems(slides) == [] then 0 else 1 + |SelectedItems(slides)|)
      + (if NoteHighlights(notes) == [] then 0 else 1 + |NoteHighlights(notes)|)
      + (if HasCustomization(customization) then 2 else 0) + 1
  {
    PromptHead(w, genre, Highlights(slides))
    + (PromptSections(w, SelectedItems(slides), NoteHighlights(notes), customization) + [w.closing])
  }

  /** GeneratePrompt: the prompt lines, in the fixed wording, joined with the
      newline. */
  method GeneratePrompt(slides: seq<TypedSlide>, notes: seq<string>, genre: string, customization: Option<string>)
    returns (prompt: string)
    ensures prompt == Join(PromptLines(Fixed, slides, notes, genre, customization), NewLine)
  {
    prompt := Compose(Fixed, slides, notes, genre, customization);
  }

  /** The body of GeneratePrompt for any wording. */
  method Compose(w: Wording, slides: seq<TypedSlide>, notes: seq<string>, genre: string, customization: Option<string>)
    returns (prompt: string)
    ensures prompt == Join(PromptLines(w, slides, notes, genre, customization), NewLine)
  {
    var selectedItems := SelectedItems(slides);
    var highlights := Highlights(slides);
    var noteHighlights := NoteHighlights(notes);
    var lines := Opening(w, genre);
    lines := AppendBullets(lines, highlights);
    ghost var head := lines;
    lines := AppendSection(lines, w.priorities, selectedItems);
    lines := AppendSection(lines, w.presenterNotes, noteHighlights);
    ghost var sections := Section(w.priorities, selectedItems) + Section(w.presenterNotes, noteHighlights);
    AppendAssoc(head, Section(w.priorities, selectedItems), Section(w.presenterNotes, noteHighlights));
    if HasCustomization(customization) {
      ghost var before := lines;
      lines := lines + [w.customization];
      lines := lines + [BulletPrefix + Trim(customization.value)];
      ConcatSnoc(before, [w.customization], BulletPrefix + Trim(customization.value));
      assert lines == before + CustomizationSection(w, customization);
    } else {
      AppendNil(lines);
    }
    AppendAssoc(head, sections, CustomizationSection(w, customization));
    ghost var all := PromptSections(w, selectedItems, noteHighlights, customization);
    assert lines == head + all;
    lines := lines + [w.closing];
    ConcatSnoc(head, all, w.closing);
    prompt := Join(lines, NewLine);
  }

  /** An if with a foreach inside: the heading and one "- item" line per item
      when there are items. */
  method AppendSection(lines: seq<string>, heading: string, items: seq<string>) returns (r: seq<string>)
    ensures r == lines + Section(heading, items)
  {
    if |items| > 0 {
      r := AppendBullets(lines + [heading], items);
      AppendAssoc(lines, [heading], Bullets(items));
    } else {
      r := lines;
      AppendNil(lines);
    }
  }

  // ---------------------------------------------------- shape of the prompt

  /** The prompt opens with the four opening lines, the third naming the
      genre. */
  lemma PromptOpening(w: Wording, slides: seq<TypedSlide>, notes: seq<string>, genre: string,
                      customization: Option<string>)
    ensures var lines := PromptLines(w, slides, notes, genre, customization);
      |lines| >= 5 && lines[..4] == [w.instruction, w.tone, "Genre preference: " + genre + ".", w.highlightsIntro]
  {
    var head := PromptHead(w, genre, Highlights(slides));
    var tail := PromptSections(w, SelectedItems(slides), NoteHighlights(notes), customization) + [w.closing];
    var opening := Opening(w, genre);
    PrefixOfAppend(opening, Bullets(Highlights(slides)));
    PrefixOfAppend(head, tail);
    PrefixOfPrefix(head + tail, 4, |head|);
  }

  /** After the opening lines come one "- highlight" line per highlight. */
  lemma PromptHighlights(w: Wording, slides: seq<TypedSlide>, notes: seq<string>, genre: string,
                         customization: Option<string>, i: nat)
    requires i < |Highlights(slides)|
    ensures var lines := PromptLines(w, slides, notes, genre, customization);
      4 + i < |lines| && lines[4 + i] == BulletPrefix + Highlights(slides)[i]
  {
    var h := Highlights(slides);
    var head := PromptHead(w, genre, h);
    var tail := PromptSections(w, SelectedItems(slides), NoteHighlights(notes), customization) + [w.closing];
    IndexLeft(head, tail, 4 + i);
    IndexRight(Opening(w, genre), Bullets(h), 4 + i);
  }

  /** The prompt closes with the closing line. */
  lemma PromptClosing(w: Wording, slides: seq<TypedSlide>, notes: seq<string>, genre: string,
                      customization: Option<string>)
    ensures var lines := PromptLines(w, slides, notes, genre, customization);
      lines != [] && lines[|lines| - 1] == w.closing
  {
    var head := PromptHead(w, genre, Highlights(slides));
    var tail := PromptSections(w, SelectedItems(slides), NoteHighlights(notes), customization) + [w.closing];
    IndexRight(head, tail, |head + tail| - 1);
  }

  /** A section heading. */
  predicate IsHeading(w: Wording, line: string) {
    line == w.priorities || line == w.presenterNotes || line == w.customization
  }

  /** A heading that can be told from a bullet line, from the genre line and
      from the other fixed lines. */
  predicate StandsOut(w: Wording, heading: string) {
    && heading != [] && heading[0] != '-' && heading[0] != 'G'
    && heading != w.instruction && heading != w.tone && heading != w.highlightsIntro && heading != w.closing
  }

  /** A wording whose headings can be found again in a prompt. */
  predicate Unambiguous(w: Wording) {
    && w.priorities != w.presenterNotes && w.priorities != w.customization && w.presenterNotes != w.customization
    && StandsOut(w, w.priorities) && StandsOut(w, w.presenterNotes) && StandsOut(w, w.customization)
  }

  /** The generator's wording is unambiguous: the fixed lines differ in length
      and the headings start with none of '-' and 'G'. */
  lemma FixedUnambiguous()
    ensures Unambiguous(Fixed)
  {
    assert |Fixed.instruction| == 83 && |Fixed.tone| == 61 && |Fixed.highlightsIntro| == 50 && |Fixed.closing| == 63;
    assert |Fixed.priorities| == 32 && |Fixed.presenterNotes| == 30 && |Fixed.customization| == 40;
    assert Fixed.priorities[0] == 'I' && Fixed.presenterNotes[0] == 'R' && Fixed.customization[0] == 'A';
  }

  /** No heading is one of the lines before the sections. */
  lemma HeadingNotInHead(w: Wording, heading: string, genre: string, highlights: seq<string>)
    requires Unambiguous(w) && IsHeading(w, heading)
    ensures heading !in PromptHead(w, genre, highlights)
  {
    assert GenreLine(genre)[0] == 'G';
    NotABullet(highlights, heading);
    NotInAppend(heading, Opening(w, genre), Bullets(highlights));
  }

  /** A line that is not a bullet is in a section exactly when it is the
      heading of a section that has items. */
  lemma LineInSection(line: string, heading: string, items: seq<string>)
    requires line == [] || line[0] != '-'
    ensures line in Section(heading, items) <==> items != [] && line == heading
  {
    NotABullet(items, line);
    if items != [] {
      assert Section(heading, items) == [heading] + Bullets(items);
    }
  }

  /** A line that is not a bullet is in the customization section exactly
      when it is its heading and there is a customization. */
  lemma LineInCustomization(w: Wording, line: string, customization: Option<string>)
    requires line == [] || line[0] != '-'
    ensures line in CustomizationSection(w, customization)
      <==> HasCustomization(customization) && line == w.customization
  {
    if HasCustomization(customization) {
      assert (BulletPrefix + Trim(customization.value))[0] == '-';
    }
  }

  /** Where a heading can be found among the sections and the closing line. */
  lemma HeadingInSections(w: Wording, heading: string, s: seq<string>, n: seq<string>, customization: Option<string>)
    requires Unambiguous(w) && IsHeading(w, heading)
    ensures heading in PromptSections(w, s, n, customization) + [w.closing]
      <==> || (heading == w.priorities && s != [])
           || (heading == w.presenterNotes && n != [])
           || (heading == w.customization && HasCustomization(customization))
  {
    LineInSection(heading, w.priorities, s);
    LineInSection(heading, w.presenterNotes, n);
    LineInCustomization(w, heading, customization);
  }

  /** Each section heading appears in the prompt exactly when its list is not
      empty. */
  lemma SectionHeadings(w: Wording, slides: seq<TypedSlide>, notes: seq<string>, genre: string,
                        customization: Option<string>)
    requires Unambiguous(w)
    ensures var lines := PromptLines(w, slides, notes, genre, customization);
      && (w.priorities in lines <==> SelectedItems(slides) != [])
      && (w.presenterNotes in lines <==> NoteHighlights(notes) != [])
      && (w.customization in lines <==> HasCustomization(customization))
  {
    var s := SelectedItems(slides);
    var n := NoteHighlights(notes);
    var h := Highlights(slides);
    HeadingNotInHead(w, w.priorities, genre, h);
    HeadingNotInHead(w, w.presenterNotes, genre, h);
    HeadingNotInHead(w, w.customization, genre, h);
    HeadingInSections(w, w.priorities, s, n, customization);
    HeadingInSections(w, w.presenterNotes, s, n, customization);
    HeadingInSections(w, w.customization, s, n, customization);
  }

  /** The customization section holds the trimmed customization. */
  lemma CustomizationLine(w: Wording, slides: seq<TypedSlide>, notes: seq<string>, genre: string,
                          customization: Option<string>)
    requires HasCustomization(customization)
    ensures BulletPrefix + Trim(customization.value) in PromptLines(w, slides, notes, genre, customization)
  {
    var c := CustomizationSection(w, customization);
    assert c[1] == BulletPrefix + Trim(customization.value);
  }
}
