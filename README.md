# ASCzee core in Dafny

This is a model of the console presentation tool ASCzee, with proofs about it.

- **Markup parser.** Turns a document into slides: once line endings are normalised, blocks are split wherever `\n---\n` occurs (so a `---` on the first or last line, or with other text on its line, does not split), the first `# ` line of a block becomes the title, and blank lines are trimmed from both ends of the content.
- **Banner renderer.** Draws a title in five-row block glyphs. Words are wrapped to lines, every glyph row is centred, and there are optional border lines.
- **Notes service.** Decides where a presentation's notes file goes. It writes the annotated markdown (every content slide, then a notes section) and reads the notes back.
- **Song-prompt generator.** Builds a prompt from a presentation's highlights, chosen priorities and notes.
- **Style loader.** Reads `key: #RRGGBB` lines into the six colours of a style and picks the style file to load. The `PresentationStyle` record formats a colour as an ECMA-48 true-colour SGR sequence.
- **State machines.** The cyclic main menu, the per-slide focus map of a session, the key-to-action table, and the viewer's key loop with its clamped slide navigation and status line.

Modules follow the source files:

| Module | Covers |
|---|---|
| `Parser` | `PresentationParser` |
| `Banner` | `AsciiBannerRenderer` |
| `Notes` | `NotesArtifactService` |
| `SongPrompt` | `SongPromptGenerator` |
| `Style` | `PresentationStyle` |
| `StyleLoader` | `PresentationStyleLoader` |
| `Menu` | `MainMenuState` |
| `Session` | `PresentationSession` |
| `Input` | `InputAction` |
| `Viewer` | `PresentationViewer` |

Supporting modules:

| Module | Models |
|---|---|
| `Text` | The .NET string operations the code uses: `Trim`, `IndexOf`, `Split`, `Join`, `ReplaceLineEndings`, decimal formatting |
| `Paths` | `Path.Combine` and `Path.GetFileName` |
| `Deck` | The slide records the notes service and the song-prompt generator read |
| `Seqs` | Generic sequence lemmas |
| `Wrappers` | `Option` and `Result` |

Three conventions hold throughout:

- Loops of the source are methods with loop invariants, proved equal to a specification function. The properties are then proved about that function.
- Objects whose fields the source updates are classes: `MainMenuState`, `PresentationSession` and `PresentationViewer`.
- `null` is `None`, and the `ArgumentNullException` of `Parse` is an error result.

## Model

| member | source | states |
|---|---|---|
| Parser.TitleIndex | src/ASCzee/PresentationParser.cs:39-44 | the title line is the first line that starts with "# " and whose trimmed remainder is not empty; no earlier line qualifies, and None means no line does |
| Parser.WithoutHeadingLines | src/ASCzee/PresentationParser.cs:41-48 | the lines before the title that stay content: none starts with "# ", and nothing is dropped when no line does |
| Parser.TrimLeadingBlankLines | src/ASCzee/PresentationParser.cs:52-53 | the result is a suffix of the lines, everything removed is blank, and it does not start with a blank line |
| Parser.TrimTrailingBlankLines | src/ASCzee/PresentationParser.cs:54-55 | the result is a prefix of the lines, everything removed is blank, and it does not end with a blank line |
| Parser.TrimBlankLines | src/ASCzee/PresentationParser.cs:51-55 | neither end of the trimmed content is a blank line |
| Parser.TrimBlankLinesSlice | src/ASCzee/PresentationParser.cs:51-55 | the trimmed content is one contiguous run of the lines, in order, and every line outside it is blank |
| Parser.WithoutHeadingLinesSnoc | src/ASCzee/PresentationParser.cs:39-48 | appending a line appends it to the non-heading lines exactly when it does not start with "# " |
| Parser.TitleIndexKept | src/ASCzee/PresentationParser.cs:41 | once a title is found, later lines never replace it |
| Parser.TitleIndexOfAppended | src/ASCzee/PresentationParser.cs:41-43 | with no title yet, an appended title line becomes the title |
| Parser.ContentAfterTitle | src/ASCzee/PresentationParser.cs:45-48 | after the title, every line, including "# " lines, goes to the content |
| Parser.ContentBeforeTitle | src/ASCzee/PresentationParser.cs:41-48 | before the title, a title line adds no content and a blank "# " line is dropped |
| Parser.SlideTitleEmpty | src/ASCzee/PresentationParser.cs:36-41 | the title is empty exactly while no title line has been seen, the condition the loop tests |
| Parser.ScanHeadingStep | src/ASCzee/PresentationParser.cs:41-44 | with an empty title, a "# " line sets the title to its trimmed remainder and is not content |
| Parser.ScanContentStep | src/ASCzee/PresentationParser.cs:45-48 | any other line keeps the title and is appended to the content |
| Parser.RemoveBlankEdges | src/ASCzee/PresentationParser.cs:51-55 | the two while loops remove exactly the leading, then the trailing blank lines |
| Parser.ParseSlide | src/ASCzee/PresentationParser.cs:33-62 | the foreach loop and the trimming give the slide of the block: the title as scanned, the trimmed content lines joined with the newline |
| Parser.ScanLines | src/ASCzee/PresentationParser.cs:39-49 | the foreach loop finds the title and collects the content lines of the block |
| Parser.SlideOf | src/ASCzee/PresentationParser.cs:33-62 | the title is empty exactly when no line is a title line, and is otherwise the heading text of the first; the content, split at line feeds, is the trimmed content lines |
| Parser.Blocks | src/ASCzee/PresentationParser.cs:20-22 | after line endings are normalised, the blocks are the non-empty pieces between "\n---\n" separators; none is empty or holds a separator |
| Parser.Parse | src/ASCzee/PresentationParser.cs:16-31 | a null document is ArgumentNull; otherwise one slide per block, in order, and the presentation title is the first slide's title or "" with no slides |
| Parser.BlocksOfJoin | src/ASCzee/PresentationParser.cs:20-22 | non-empty blocks joined with "\n---\n", none holding or running into a separator, split back into the same blocks |
| Parser.ParseOfJoin | src/ASCzee/PresentationParser.cs:16-31 | such a document parses to one slide per block, each the slide of its block, and takes the first slide's title |
| Parser.UntitledBlock | src/ASCzee/PresentationParser.cs:41-48 | a block without "# " lines has an empty title and keeps every line as content |
| Parser.LinesAfterTitleAreContent | src/ASCzee/PresentationParser.cs:41-48 | the title is the title line's trimmed remainder, and every line after it ends the content, in order |
| Parser.ParseEmpty | src/ASCzee.Tests/PresentationParserTests.cs:5-10 | the empty document has no slides and an empty title |
| Parser.ParseWithoutSeparator | src/ASCzee/PresentationParser.cs:20-26 | a non-empty document without separator lines is exactly one slide, parsed from the normalised document |
| Parser.ParseNormalised | src/ASCzee/PresentationParser.cs:21 | a document parses exactly as its line-ending-normalised form |
| Parser.ParseIgnoresLineEndingStyle | src/ASCzee/PresentationParser.cs:21 | the same lines joined with CRLF or with LF give the same presentation |
| Text.Trim | src/ASCzee/PresentationParser.cs:43 | the result has no leading or trailing white space, and is empty exactly when the input is blank |
| Text.TrimSlice | src/ASCzee/PresentationParser.cs:43 | the trimmed text is one contiguous run of the input with only white space cut from either side |
| Text.TrimStart | src/ASCzee/SongPromptGenerator.cs:11 | the result is a suffix of the input, and what is removed is white space |
| Text.TrimEnd | src/ASCzee/NotesArtifactService.cs:44 | the result is a prefix of the input, and what is removed is white space |
| Text.Split | src/ASCzee/PresentationParser.cs:22 | joining the pieces with the separator gives the input back, no piece holds the separator, and with more than one piece the first cut is at the first occurrence of the separator |
| Text.RemoveEmpty | src/ASCzee/PresentationParser.cs:22 | keeps only non-empty pieces of the input, and every piece when none is empty |
| Text.RemoveEmptyAppend | src/ASCzee/PresentationParser.cs:22 | dropping empty pieces works piece by piece: over two runs of pieces it is the kept pieces of the first, then those of the second |
| Text.SplitJoinChar | src/ASCzee/PresentationParser.cs:35 | splitting on a one-character separator that no part holds undoes the join |
| Text.IndexOf | src/ASCzee/PresentationStyleLoader.cs:51 | the first position where the pattern occurs, or None when it occurs nowhere |
| Text.IndexOfChar | src/ASCzee/PresentationStyleLoader.cs:51 | line.IndexOf(':') is None exactly when ':' is absent, else the position of the first ':' |
| Text.ReplaceLineEndings | src/ASCzee/PresentationParser.cs:21 | the result holds no CR, and no line break other than LF; the lemmas below pin down which characters become LF |
| Text.ReplaceLineEndingsPointwise | src/ASCzee/PresentationParser.cs:21 | without CRLF pairs the length is kept, each CR, LF, FF, NEL, LS or PS becomes one LF, and every other character stays |
| Text.ReplaceLineEndingsKeepsLineFeeds | src/ASCzee/PresentationParser.cs:21 | a text with only LF line breaks is unchanged |
| Text.ReplaceLineEndingsIdempotent | src/ASCzee/PresentationParser.cs:21 | normalising twice is normalising once |
| Text.ReplaceLineEndingsOfJoin | src/ASCzee/PresentationParser.cs:21 | lines joined with CRLF or LF normalise to the LF-joined text |
| Text.ToUpperAscii | src/ASCzee/AsciiBannerRenderer.cs:53 | upper-casing keeps the length; each lower-case letter becomes the same letter in upper case, every other character stays, and no lower-case letter is left |
| Text.ToDecimal | src/ASCzee/PresentationStyle.cs:5 | the shortest decimal numeral of the value: digits only, no leading zero, reading back to the value |
| Text.ParseDecimal | src/ASCzee/PresentationStyle.cs:5 | accepts exactly the non-empty digit strings, with their value |
| Text.Spaces | src/ASCzee/AsciiBannerRenderer.cs:166 | new string(' ', n): n spaces |
| Text.Bullets | src/ASCzee/NotesArtifactService.cs:61-64 | one "- item" line per item, in order |
| Text.AppendBullets | src/ASCzee/SongPromptGenerator.cs:25-28 | the foreach loop appends exactly the bullet lines of the items |
| Text.NotABullet | src/ASCzee/SongPromptGenerator.cs:27 | a line not starting with '-' is never a bullet line |
| Banner.CDiv | src/ASCzee/AsciiBannerRenderer.cs:54 | C# int division by a positive divisor truncates toward zero |
| Banner.MaxChars | src/ASCzee/AsciiBannerRenderer.cs:54 | Math.Max(1, (width - 2) / 6): at least 1, and the largest count of 6-column glyphs that fits width - 2 |
| Banner.Safe | src/ASCzee/AsciiBannerRenderer.cs:53 | "UNTITLED" for a null or blank title, otherwise the trimmed title in upper case; never empty, always trimmed |
| Banner.GetGlyph | src/ASCzee/AsciiBannerRenderer.cs:102-107 | every glyph, the fallback included, has exactly five rows |
| Banner.GlyphWidths | src/ASCzee/AsciiBannerRenderer.cs:9-49 | each glyph row is 5 columns wide, the space's rows 3 |
| Banner.GlyphFallback | src/ASCzee/AsciiBannerRenderer.cs:102-107 | exactly the characters outside the table get the fallback glyph |
| Banner.Words | src/ASCzee/AsciiBannerRenderer.cs:111 | the words are non-empty and hold no space |
| Banner.WordsFlatten | src/ASCzee/AsciiBannerRenderer.cs:111 | the words, put together, are the text without its spaces |
| Banner.PiecesFrom | src/ASCzee/AsciiBannerRenderer.cs:125-128 | a long word is cut into non-empty pieces of at most max characters |
| Banner.PiecesFlatten | src/ASCzee/AsciiBannerRenderer.cs:125-128 | the pieces put back together give the word again |
| Banner.AppendPieces | src/ASCzee/AsciiBannerRenderer.cs:125-128 | the inner for loop appends exactly the pieces of the word |
| Banner.WrapWordsStep | src/ASCzee/AsciiBannerRenderer.cs:115-143 | one pass of the foreach is one step of the wrap over the next word |
| Banner.Finish | src/ASCzee/AsciiBannerRenderer.cs:145-155 | after the loop, at least one chunk: a non-blank current line is emitted, and an empty result becomes ["UNTITLED"] |
| Banner.WrapByWord | src/ASCzee/AsciiBannerRenderer.cs:109-156 | the method computes the wrap of the text, which is never empty |
| Banner.Wrap | src/ASCzee/AsciiBannerRenderer.cs:109-156 | the wrap always has at least one chunk |
| Banner.StepFits | src/ASCzee/AsciiBannerRenderer.cs:117-142 | every step keeps each chunk and the current line within max characters |
| Banner.StepHolds | src/ASCzee/AsciiBannerRenderer.cs:133-142 | once a non-blank line is held it stays held, and a non-blank word is always held |
| Banner.WrapWordsFit | src/ASCzee/AsciiBannerRenderer.cs:115-143 | over all the words, every chunk fits, and a non-blank word leaves a line held |
| Banner.WrapFits | src/ASCzee/AsciiBannerRenderer.cs:109-156 | with at least one non-blank word, every chunk is at most maxCharsPerLine characters |
| Banner.RenderChunksFit | src/ASCzee/AsciiBannerRenderer.cs:53-54 | for any title, every chunk Render draws fits MaxChars(width) |
| Banner.FirstWordOfTrimmed | src/ASCzee/AsciiBannerRenderer.cs:53-54 | a trimmed non-empty title starts with a non-blank word |
| Banner.RemoveSpacesOfJoin | src/ASCzee/AsciiBannerRenderer.cs:133 | joining space-free words with spaces and removing spaces gives their concatenation |
| Banner.StepKeepsText | src/ASCzee/AsciiBannerRenderer.cs:117-142 | a step over a non-blank word adds exactly that word to the text shown, less spaces |
| Banner.LongWordKeepsText | src/ASCzee/AsciiBannerRenderer.cs:117-131 | cutting a long word adds exactly that word to the text shown |
| Banner.WrapWordsKeepText | src/ASCzee/AsciiBannerRenderer.cs:115-143 | over non-blank words, the text shown is the words put together |
| Banner.WrapKeepsText | src/ASCzee/AsciiBannerRenderer.cs:109-156 | for a text whose only white space is spaces, the chunks with spaces removed are the text with spaces removed |
| Banner.BorderLine | src/ASCzee/AsciiBannerRenderer.cs:62 | Math.Max(10, width) '═' characters |
| Banner.Center | src/ASCzee/AsciiBannerRenderer.cs:158-167 | the text, padded in front with (width - length) / 2 spaces when it is shorter than the width, and unchanged otherwise |
| Banner.GlyphRows | src/ASCzee/AsciiBannerRenderer.cs:72-80 | one glyph row per character of the chunk |
| Banner.ChunkRows | src/ASCzee/AsciiBannerRenderer.cs:69-83 | one line per glyph row drawn |
| Banner.ChunkRowsAt | src/ASCzee/AsciiBannerRenderer.cs:69-83 | row row of a chunk is its glyph rows joined by single spaces, then centred |
| Banner.Render | src/ASCzee/AsciiBannerRenderer.cs:51-100 | the method's output is the layout of the wrapped safe title: borders, chunk rows with separators, borders |
| Banner.AppendBorders | src/ASCzee/AsciiBannerRenderer.cs:58-64 | each border loop appends n border lines |
| Banner.DrawChunks | src/ASCzee/AsciiBannerRenderer.cs:66-89 | the chunk loop appends every chunk's five rows, with a blank line after every chunk but the last |
| Banner.DrawChunk | src/ASCzee/AsciiBannerRenderer.cs:69-83 | the row loop draws the five centred glyph rows |
| Banner.BuildGlyphLine | src/ASCzee/AsciiBannerRenderer.cs:71-81 | the StringBuilder loop gives the glyph rows joined by single spaces |
| Banner.StackLength | src/ASCzee/AsciiBannerRenderer.cs:66-89 | n five-line blocks with separators between them take 6n - 1 lines |
| Banner.StackLine | src/ASCzee/AsciiBannerRenderer.cs:66-89 | block k holds the lines from 6k on, followed by the separator unless it is the last |
| Banner.LayoutLineCount | src/ASCzee/AsciiBannerRenderer.cs:56-97 | the line count is 2 * max(1, borderHeight) border lines with a border, plus 5 per chunk, plus one between consecutive chunks |
| Banner.LayoutBodyLine | src/ASCzee/AsciiBannerRenderer.cs:58-89 | after the top border, the output holds the chunk lines in order |
| Banner.BodyChunkLine | src/ASCzee/AsciiBannerRenderer.cs:66-89 | line 6k + row of the chunk lines is row row of chunk k, or the blank separator after it |
| Banner.Layout | src/ASCzee/AsciiBannerRenderer.cs:56-97 | without a border the output is the chunk lines alone; with one it is height border lines, the chunk lines and height border lines again |
| Banner.RenderQuestionMarkAndParens | src/ASCzee.Tests/AsciiBannerRendererTests.cs:8-10 | "?( )" at width 120 without border is one chunk of 5 lines, and its rows show the fallback glyph's '?' |
| Banner.WrapOfQuestionMarkAndParens | src/ASCzee.Tests/AsciiBannerRendererTests.cs:8 | "?( )" wraps to the single chunk "?( )" |
| Paths.Combine | src/ASCzee/NotesArtifactService.cs:20 | Path.Combine: a rooted name wins, an empty directory gives the name, otherwise a separator is inserted if missing |
| Paths.FileName | src/ASCzee/NotesArtifactService.cs:10 | Path.GetFileName: the part after the last separator |
| Paths.CombineFileName | src/ASCzee/NotesArtifactService.cs:17-20 | the file name of a combined path is the combined file name |
| Notes.NotesExtension | src/ASCzee/NotesArtifactService.cs:11-15 | the source's extension, or ".md" when it is blank; never blank |
| Notes.GetNotesPath | src/ASCzee/NotesArtifactService.cs:7-21 | the bare notes file name with no directory; otherwise a path ending in it |
| Notes.NotesPathInDirectory | src/ASCzee/NotesArtifactService.cs:7-21 | with a directory, the notes path is the directory, one separator, the stem, ".notes" and the extension |
| Notes.NotesPathFileName | src/ASCzee/NotesArtifactService.cs:7-21 | the file name of the notes path is "<stem>.notes<ext>", with ".md" for a blank extension |
| Notes.OptionAt | src/ASCzee/NotesArtifactService.cs:93-94 | the dictionary lookup finds an option bound to the index, and None means none is |
| Notes.OptionAtFinds | src/ASCzee/NotesArtifactService.cs:93 | with distinct line indices, each option is found at its own index |
| Notes.RenderBodyLines | src/ASCzee/NotesArtifactService.cs:86-95 | without options the body as is; otherwise same length, options' lines replaced by their task lines, all others unchanged |
| Notes.RenderBodyLine | src/ASCzee/NotesArtifactService.cs:94 | line by line: a line with an option becomes that option's task line, a line with none is kept |
| Notes.HeadingLine | src/ASCzee/NotesArtifactService.cs:43-44 | the heading starts with '#', is a prefix of the heading prefix, a space and the title, ends in a non-white-space character, and only white space is cut off after it |
| Notes.HeadingLineOfTitle | src/ASCzee/NotesArtifactService.cs:43-44 | "# title" for a title slide, "## title" otherwise, when the title has no trailing white space |
| Notes.HeadingLineOfBlankTitle | src/ASCzee/NotesArtifactService.cs:43-44 | a slide with a blank title gets its bare heading prefix |
| Notes.SlideSection | src/ASCzee/NotesArtifactService.cs:43-51 | a slide contributes its heading, its rendered body lines and exactly one blank line |
| Notes.SlideSectionsOfWritten | src/ASCzee/NotesArtifactService.cs:41 | main-menu and notes slides contribute nothing, and the other slides' sections follow in slide order |
| Notes.AppendSlides | src/ASCzee/NotesArtifactService.cs:41-52 | the slide loop produces the slide sections |
| Notes.AppendSection | src/ASCzee/NotesArtifactService.cs:43-51 | one pass of the slide loop appends that slide's section |
| Notes.SlideSectionsStep | src/ASCzee/NotesArtifactService.cs:41-52 | each slide adds its section when it is written and nothing otherwise |
| Notes.AnnotatedLines | src/ASCzee/NotesArtifactService.cs:37-68 | the slide-section lines, then the "## Presentation Notes" heading line, then one line per note, or a single placeholder line when there are none |
| Notes.BuildAnnotatedMarkdown | src/ASCzee/NotesArtifactService.cs:37-68 | the markdown is the annotated lines joined with the newline |
| Notes.AnnotatedEndsWithNotes | src/ASCzee/NotesArtifactService.cs:39-65 | the lines are the slide sections followed by the notes section |
| Notes.NotesSectionLines | src/ASCzee/NotesArtifactService.cs:54-65 | the notes section is "## Presentation Notes", then the placeholder line with no notes, else one "- note" line per note in order |
| Notes.NoteOf | src/ASCzee/NotesArtifactService.cs:79-82 | a kept note is trimmed, not blank and not the placeholder |
| Notes.NoteText | src/ASCzee/NotesArtifactService.cs:82 | a bullet's text is kept only when it is neither blank nor the placeholder |
| Notes.NotesOf | src/ASCzee/NotesArtifactService.cs:78-83 | at most one note per body line |
| Notes.NotesKeepable | src/ASCzee/NotesArtifactService.cs:78-83 | every extracted note is trimmed, not blank and not the placeholder in any case |
| Notes.ExtractNotes | src/ASCzee/NotesArtifactService.cs:70-84 | the notes of the first notes slide or slide titled "Presentation Notes" in any case, or none when there is no such slide |
| Notes.IsPlaceholderMeans | src/ASCzee/NotesArtifactService.cs:82 | the placeholder test is the case-insensitive comparison with "No notes captured yet." |
| Notes.NoteOfBullet | src/ASCzee/NotesArtifactService.cs:78-83 | a "- note" line of a keepable note gives that note back |
| Notes.NotABulletLine | src/ASCzee/NotesArtifactService.cs:80 | a trimmed line whose second character is not a space is not a bullet |
| Notes.NoteOfNonBullet | src/ASCzee/NotesArtifactService.cs:80 | a line that is no bullet once trimmed holds no note |
| Notes.NoteOfPlaceholderBullet | src/ASCzee/NotesArtifactService.cs:82 | a bullet whose text is the placeholder, in any case, holds no note |
| Notes.NoteOfHeading | src/ASCzee/NotesArtifactService.cs:54-80 | the notes heading line holds no note |
| Notes.NoteOfPlaceholder | src/ASCzee/NotesArtifactService.cs:78-83 | the placeholder line holds no note |
| Notes.NotesOfAppend | src/ASCzee/NotesArtifactService.cs:78-83 | extraction distributes over concatenated body lines |
| Notes.NotesOfBullets | src/ASCzee/NotesArtifactService.cs:61-83 | the bullet lines of keepable notes extract to the same notes |
| Notes.NotesRoundTrip | src/ASCzee/NotesArtifactService.cs:54-83 | the whole notes section, heading and placeholder included, extracts to the notes written |
| Notes.ExtractWrittenNotes | src/ASCzee/NotesArtifactService.cs:70-84 | when the first notes slide holds the written notes section, extraction returns the notes |
| SongPrompt.SelectedItems | src/ASCzee/SongPromptGenerator.cs:7-8 | the first at most 6 texts of selected options of title and standard slides, in order |
| SongPrompt.SelectedItemsOrigin | src/ASCzee/SongPromptGenerator.cs:7-8 | each chosen priority is the text of a selected option of a title or standard slide |
| SongPrompt.Highlights | src/ASCzee/SongPromptGenerator.cs:9-13 | the first at most 6 non-blank body lines of content slides not starting with "- [" after leading white space, in order |
| SongPrompt.NoteHighlights | src/ASCzee/SongPromptGenerator.cs:15 | the first at most 6 non-blank notes, in order |
| SongPrompt.NonContentIgnored | src/ASCzee/SongPromptGenerator.cs:7 | a notes or main-menu slide contributes no highlight and no priority, wherever it is |
| SongPrompt.Section | src/ASCzee/SongPromptGenerator.cs:30-46 | nothing for an empty list, else the heading and one bullet line per item |
| SongPrompt.AppendSection | src/ASCzee/SongPromptGenerator.cs:30-37 | the if with its foreach appends exactly the section |
| SongPrompt.Compose | src/ASCzee/SongPromptGenerator.cs:17-56 | the method's output is the prompt lines joined with the newline |
| SongPrompt.GeneratePrompt | src/ASCzee/SongPromptGenerator.cs:5-57 | the same, in the generator's fixed wording |
| SongPrompt.PromptOpening | src/ASCzee/SongPromptGenerator.cs:17-23 | the prompt opens with the four fixed lines, the third "Genre preference: {genre}." |
| SongPrompt.PromptHighlights | src/ASCzee/SongPromptGenerator.cs:25-28 | after those come one "- highlight" line per highlight, in order |
| SongPrompt.PromptLines | src/ASCzee/SongPromptGenerator.cs:17-54 | the line count: four opening lines, one per highlight, a headed section for selected priorities and for note highlights only when there are any, two customization lines only when there is one, and the closing line |
| SongPrompt.PromptClosing | src/ASCzee/SongPromptGenerator.cs:54 | the prompt ends with the closing line |
| SongPrompt.FixedUnambiguous | src/ASCzee/SongPromptGenerator.cs:19-54 | the fixed lines are told apart: no heading equals another fixed line or starts like a bullet |
| SongPrompt.LineInSection | src/ASCzee/SongPromptGenerator.cs:30-46 | a non-bullet line is in a section exactly when it is the heading of a non-empty section |
| SongPrompt.LineInCustomization | src/ASCzee/SongPromptGenerator.cs:48-52 | a non-bullet line is in the customization section exactly when it is its heading and a customization is given |
| SongPrompt.HeadingNotInHead | src/ASCzee/SongPromptGenerator.cs:17-28 | no section heading is among the opening and highlight lines |
| SongPrompt.HeadingInSections | src/ASCzee/SongPromptGenerator.cs:30-54 | a heading occurs among the sections exactly when its list is not empty |
| SongPrompt.SectionHeadings | src/ASCzee/SongPromptGenerator.cs:30-52 | each section heading appears in the prompt exactly when its list is not empty, or the customization is not blank |
| SongPrompt.CustomizationLine | src/ASCzee/SongPromptGenerator.cs:48-52 | a non-blank customization appears trimmed as a bullet line |
| Style.AnsiForegroundCode | src/ASCzee/PresentationStyle.cs:5 | ESC "[38;2;", the components in decimal separated by ';', then 'm' |
| Style.ComponentsJoined | src/ASCzee/PresentationStyle.cs:5 | the interpolated string is the prefix, the joined components and 'm' |
| Style.ParseByte | src/ASCzee/PresentationStyle.cs:3 | a decimal parameter is read back exactly when it is a numeral below 256 |
| Style.ParseForegroundCode | src/ASCzee/PresentationStyle.cs:5 | a code is read back only from the prefix ... 'm' shape |
| Style.ForegroundCodeRoundTrip | src/ASCzee/PresentationStyle.cs:3-5 | the foreground code of a colour reads back as that colour |
| Style.ForegroundCodeInjective | src/ASCzee/PresentationStyle.cs:3-5 | different colours have different codes; colours are equal component-wise |
| StyleLoader.LookupKey | src/ASCzee/PresentationStyleLoader.cs:33-59 | the OrdinalIgnoreCase dictionary finds the entry whose name equals the key ignoring case, and None when no name does |
| StyleLoader.KeyNamesDistinct | src/ASCzee/PresentationStyleLoader.cs:35-40 | the six names differ even ignoring case, so the dictionary has six entries |
| StyleLoader.LookupKeyName | src/ASCzee/PresentationStyleLoader.cs:33-59 | any casing of a name finds that entry |
| StyleLoader.HexValue | src/ASCzee/PresentationStyleLoader.cs:97-99 | a hex digit's value is below 16 |
| StyleLoader.ParseHexPair | src/ASCzee/PresentationStyleLoader.cs:97-99 | two hex digits give their byte; two non-digits give failure |
| StyleLoader.TryParseHex | src/ASCzee/PresentationStyleLoader.cs:81-106 | success needs the trimmed value to be '#' and exactly six more characters |
| StyleLoader.TryParseHexMeans | src/ASCzee/PresentationStyleLoader.cs:81-106 | a value parses exactly when, trimmed, it is '#' and three hexadecimal pairs, and then the colour holds the three pairs' values |
| StyleLoader.NotHexPair | src/ASCzee/PresentationStyleLoader.cs:97-102 | a '#' and six characters whose first pair is not hexadecimal do not parse |
| StyleLoader.NotHexDigitsExample | src/ASCzee/PresentationStyleLoader.cs:97-102 | "#GG0000" is not a colour |
| StyleLoader.HexOfPairs | src/ASCzee/PresentationStyleLoader.cs:84-105 | '#' and three parsable pairs give the colour of those pairs |
| StyleLoader.HexDigit | src/ASCzee/PresentationStyleLoader.cs:97-99 | the digit written for a value reads back as that value |
| StyleLoader.FormatHex | src/ASCzee/PresentationStyleLoader.cs:81-106 | "#RRGGBB" has seven characters, starts with '#' and is trimmed |
| StyleLoader.ParseFormatHex | src/ASCzee/PresentationStyleLoader.cs:81-106 | every colour written as "#RRGGBB" parses back to itself |
| StyleLoader.HexExample1 | src/ASCzee/PresentationStyleLoader.cs:97-104 | "#0A141E" parses to (10, 20, 30) |
| StyleLoader.HexExample2 | src/ASCzee/PresentationStyleLoader.cs:97-104 | "#FF00FF" parses to (255, 0, 255) |
| StyleLoader.NotHex | src/ASCzee/PresentationStyleLoader.cs:85-88 | a value not starting with '#' is rejected |
| StyleLoader.NotHexExamples | src/ASCzee.Tests/PresentationStyleLoaderTests.cs:32-54 | "not-a-color", "1,2" and "1000,0,0" are rejected |
| StyleLoader.SplitAssignment | src/ASCzee/PresentationStyleLoader.cs:45-58 | a line is skipped exactly when, trimmed, it has no ':' or its first ':' is first or last; else it splits at the first ':' into trimmed key and value |
| StyleLoader.SplitLineMeans | src/ASCzee/PresentationStyleLoader.cs:46-58 | the same split for a line already trimmed |
| StyleLoader.SplitAt | src/ASCzee/PresentationStyleLoader.cs:51-58 | a trimmed line whose first ':' is inside it splits there |
| StyleLoader.ParseLine | src/ASCzee/PresentationStyleLoader.cs:45-67 | a skipped line assigns nothing |
| StyleLoader.ParseLineOf | src/ASCzee/PresentationStyleLoader.cs:57-67 | a split line assigns colour c to entry k exactly when the key names k ignoring case and the value parses to c |
| StyleLoader.ParseAssignmentOf | src/ASCzee/PresentationStyleLoader.cs:59-67 | the same for the split key and value |
| StyleLoader.ColorsOf | src/ASCzee/PresentationStyleLoader.cs:33-41 | the starting dictionary has all six entries |
| StyleLoader.ColorsOfColor | src/ASCzee/PresentationStyleLoader.cs:35-40 | the starting dictionary holds the base style's colours |
| StyleLoader.StyleOfColor | src/ASCzee/PresentationStyleLoader.cs:70-78 | the built style holds the final dictionary's colours |
| StyleLoader.Assignments | src/ASCzee/PresentationStyleLoader.cs:43-68 | one assignment per line, in order |
| StyleLoader.AssignmentsAround | src/ASCzee/PresentationStyleLoader.cs:43-68 | each line is parsed on its own: a line between others contributes its own assignment at its own place |
| StyleLoader.Step | src/ASCzee/PresentationStyleLoader.cs:64-67 | an assignment keeps the dictionary complete |
| StyleLoader.Apply | src/ASCzee/PresentationStyleLoader.cs:43-68 | the assignments in order keep the dictionary complete |
| StyleLoader.ApplySnoc | src/ASCzee/PresentationStyleLoader.cs:43-68 | one more line is one more step after the others |
| StyleLoader.LastAssigned | src/ASCzee/PresentationStyleLoader.cs:43-68 | the colour of the last assignment to an entry, and None exactly when no line assigns it |
| StyleLoader.ApplyLastAssigned | src/ASCzee/PresentationStyleLoader.cs:43-68 | each entry ends with its last assigned colour, or keeps its starting colour |
| StyleLoader.LaterAssignmentWins | src/ASCzee/PresentationStyleLoader.cs:66 | an assignment decides the colour unless a later one assigns the same entry |
| StyleLoader.LoadedColor | src/ASCzee/PresentationStyleLoader.cs:31-79 | every entry of the loaded style is the colour of the last line assigning it, or the base colour |
| StyleLoader.LaterLineWins | src/ASCzee/PresentationStyleLoader.cs:43-68 | a line assigning an entry decides it when no later line assigns it |
| StyleLoader.UnmentionedKept | src/ASCzee/PresentationStyleLoader.cs:35-78 | an entry no line assigns keeps the base colour |
| StyleLoader.ReadLine | src/ASCzee/PresentationStyleLoader.cs:45-67 | one pass of the foreach yields exactly the assignment the line makes: nothing for a line it skips with `continue`, otherwise the entry and the colour |
| StyleLoader.LoadFromFile | src/ASCzee/PresentationStyleLoader.cs:31-79 | the loop over the lines computes the loaded style |
| StyleLoader.LoadedStyle | src/ASCzee/PresentationStyleLoader.cs:31-79 | a file without lines leaves the base style as it is |
| StyleLoader.KeyNameShape | src/ASCzee/PresentationStyleLoader.cs:35-40 | every name is non-empty, trimmed and free of ':' |
| StyleLoader.FormatLineSplit | src/ASCzee/PresentationStyleLoader.cs:51-58 | "Name: #RRGGBB" splits into the name and the colour text |
| StyleLoader.ParseFormatLine | src/ASCzee/PresentationStyleLoader.cs:43-67 | "Name: #RRGGBB" assigns that colour to that entry |
| StyleLoader.Candidates | src/ASCzee/PresentationStyleLoader.cs:7-11 | three candidates; the second and third are named "default.style" |
| StyleLoader.Load | src/ASCzee/PresentationStyleLoader.cs:5-29 | the first existing candidate, in order, is loaded on top of the default style; with none, the default style |
| Menu.IndexOfAction | src/ASCzee/MainMenuState.cs:25 | Array.IndexOf finds each action at its one position in ActionOrder |
| Menu.ActionsInOrder | src/ASCzee/MainMenuState.cs:12-17 | the order is Exit, StartNew, CreateSong, each action once |
| Menu.NextSteps | src/ASCzee/MainMenuState.cs:35-45 | moving down goes one place on and wraps from CreateSong to Exit, and only from there |
| Menu.PreviousSteps | src/ASCzee/MainMenuState.cs:23-33 | moving up goes one place back and wraps from Exit to CreateSong, and only from there |
| Menu.NextPreviousInverse | src/ASCzee/MainMenuState.cs:23-45 | MoveUp and MoveDown undo each other |
| Menu.ThreeMovesCycle | src/ASCzee/MainMenuState.cs:23-45 | three moves in one direction return to the start, and fewer do not |
| Menu.MainMenuState.constructor | src/ASCzee/MainMenuState.cs:19 | a new menu focuses Exit |
| Menu.MainMenuState.Actions | src/ASCzee/MainMenuState.cs:21 | the actions are always [Exit, StartNew, CreateSong] |
| Menu.MainMenuState.MoveUp | src/ASCzee/MainMenuState.cs:23-33 | the focus becomes the previous action, cyclically |
| Menu.MainMenuState.MoveDown | src/ASCzee/MainMenuState.cs:35-45 | the focus becomes the next action, cyclically |
| Session.FocusOf | src/ASCzee/PresentationSession.cs:23-26 | the recorded focus of a slide, or 0 |
| Session.SetThenGet | src/ASCzee/PresentationSession.cs:23-31 | after setting a slide's focus, getting it returns the value set |
| Session.SetKeepsOthers | src/ASCzee/PresentationSession.cs:28-31 | setting one slide's focus leaves every other slide's focus |
| Session.SetOverwrites | src/ASCzee/PresentationSession.cs:30 | a later set for the same slide overwrites the earlier one |
| Session.NeverSet | src/ASCzee/PresentationSession.cs:21-25 | a slide never set reports 0 |
| Session.PresentationSession.constructor | src/ASCzee/PresentationSession.cs:11-21 | a new session: slide 0, no jump to return from, menu closed on Exit, no notes, no recorded focus |
| Session.PresentationSession.GetFocusIndex | src/ASCzee/PresentationSession.cs:23-26 | the recorded focus, or 0 for a slide never set |
| Session.PresentationSession.SetFocusIndex | src/ASCzee/PresentationSession.cs:28-31 | only the focus map changes: the slide maps to the new focus, the others are unchanged |
| Input.Map | src/ASCzee/InputAction.cs:19-34 | the result is None exactly for the keys outside the nine mapped ones |
| Input.KeyFor | src/ASCzee/InputAction.cs:21-31 | each action other than None has a mapped key |
| Input.ArrowKeys | src/ASCzee/InputAction.cs:23-26 | the arrow keys give next and previous slide and option focus up and down |
| Input.OtherKeys | src/ASCzee/InputAction.cs:27-32 | Space toggles, Insert adds a note, F1 jumps to the notes, Escape is Escape, Enter confirms, and Backspace and Q give None |
| Input.MapDependsOnKeyOnly | src/ASCzee/InputAction.cs:21 | the typed character and the modifiers play no part |
| Input.KeyForProduces | src/ASCzee/InputAction.cs:21-31 | the key named for an action produces it |
| Input.KeyForUnique | src/ASCzee/InputAction.cs:21-33 | no other key produces it: each action has exactly one key |
| Viewer.Step | src/ASCzee/PresentationViewer.cs:34-49 | forward moves on exactly when not on the last slide, back moves back exactly when not on the first, and other keys move nowhere; the slide stays in range |
| Viewer.KeysRead | src/ASCzee/PresentationViewer.cs:27-32 | the loop reads no more keys than there are, up to and including the first quit |
| Viewer.FinalIndex | src/ASCzee/PresentationViewer.cs:27-50 | from a slide of the deck the loop ends on a slide of the deck |
| Viewer.Redrawn | src/ASCzee/PresentationViewer.cs:36-48 | from a slide of the deck every slide the loop redraws is in the deck |
| Viewer.RedrawnSteps | src/ASCzee/PresentationViewer.cs:36-48 | every redrawn slide differs by one from the one drawn before it, the first from the starting slide |
| Viewer.QuitEndsLoop | src/ASCzee/PresentationViewer.cs:31-32 | keys after the first Q or Escape are never read |
| Viewer.IgnoredKey | src/ASCzee/PresentationViewer.cs:34-49 | a key that neither quits nor navigates changes nothing and draws nothing |
| Viewer.PresentationViewer.constructor | src/ASCzee/PresentationViewer.cs:11-14 | a new viewer is on the first slide |
| Viewer.PresentationViewer.Run | src/ASCzee/PresentationViewer.cs:16-54 | no slides: nothing drawn and no key read; otherwise the first slide drawn, then one redraw per change, ending on the final slide of the key sequence |
| Viewer.PadLeft | src/ASCzee/PresentationViewer.cs:84 | string.PadLeft: the text right-aligned in totalWidth, spaces in front |
| Viewer.CenterAgrees | src/ASCzee/PresentationViewer.cs:80-85 | the viewer centres titles exactly as the banner renderer does |
| Viewer.Center | src/ASCzee/PresentationViewer.cs:80-85 | the text is kept at the end, only spaces go in front of it, (width - length) / 2 of them when the text is shorter than the width, none otherwise |
| Viewer.StatusLine | src/ASCzee/PresentationViewer.cs:73 | starts with " Slide ", and between it and the key help holds "{index + 1}/{count}" |
| Viewer.FractionRoundTrip | src/ASCzee/PresentationViewer.cs:73 | the "{position}/{count}" part reads back as the two numbers |
| Viewer.StatusLineInjective | src/ASCzee/PresentationViewer.cs:73 | different slides or slide counts give different status lines |

## Left out

- Console I/O is not modelled: `Console.ReadKey`, `WriteLine`, `Clear`, colours and the cursor. The viewer's key stream is a finite sequence of keys, and `Run` returns the slides it would draw rather than drawing them. The loop also ends when the keys run out.
- `RenderSlide` is not modelled. It draws the title, the rule line, the content and the status line padded to the window width with `PadRight`. Only the pieces it formats are modelled: `Center` and the status text.
- File I/O is not modelled. `File.Exists` and `File.ReadLines` are parameters of `StyleLoader.Load`, and `LoadFromFile` takes the lines of the file.
- `File.WriteAllText` in `Save` and `File.Delete` in `Delete` are side effects only, so `Save` and `Delete` are not modelled. What `Save` writes is `Notes.BuildAnnotatedMarkdown`.
- `Environment.CurrentDirectory` is a parameter of `Load`.
- `Environment.NewLine` is fixed to "\n".
- The `TERM` probe of `InputCapability` in `PresentationSession` reads the environment, so it is not modelled.
- `DesktopActions` and `Program.cs` are the application's shell and are not part of this model.
- `PresentationParser.BuildTaskLine`: PresentationParser.cs defines no `BuildTaskLine`, though NotesArtifactService.cs:94 calls it. The model takes it as the function parameter `taskLine`.
- The slide record is inconsistent across files. The notes service and the song-prompt generator use members that `Slide.cs` lacks: a slide type, body lines and option items. They read the record `Deck.TypedSlide`, while the parser produces the title-and-content `Parser.Slide`.
- Paths are given by their parts, `Paths.PathParts`: the directory, the stem and the extension. `Path.GetDirectoryName`, `GetFileNameWithoutExtension` and `GetExtension` are not modelled on raw strings.
- `Path.ChangeExtension` is not modelled either: the first style candidate is the stem with ".style" in the same directory. The directory separator is '/'.
- Case folding is ASCII only. This affects `ToUpperInvariant` (the banner text) and the `OrdinalIgnoreCase` comparisons (the style keys, the notes heading and the placeholder). Non-ASCII letters are left as they are.
- Banner.WrapKeepsText: the text-preservation property is stated for texts whose only white space is spaces. WrapByWord drops a word of tabs or other white space that arrives while the current line is empty, for example right after a cut long word, so the property does not hold for all texts.
- Banner.WrapFits: the bound on chunk length is stated when some word is not blank. Otherwise the result is ["UNTITLED"], which need not fit. Banner.RenderChunksFit shows every chunk fits for the text Render passes.
- Integers are unbounded. `width`, `borderHeight`, line indices and slide indices are C# `int`, but no operation here computes near their range, so wrap-around is not modelled. Colour components are a `byte` newtype.
- `byte.TryParse` with `NumberStyles.HexNumber` is modelled for the two-character strings `TryParseHex` passes: two hex digits, one hex digit after leading white space, or one hex digit before trailing white space or a NUL. StyleLoader.ParseHexPair states only the two-digit and the no-digit cases in its contract.
- Menu.MainMenuState.MoveDown: the `currentIndex == -1` branch is not modelled. It covers a `FocusedAction` outside the enum, which C# allows through a cast. In the model every action is in the order, so `IndexOf` never returns -1 and that branch cannot be taken. Menu.MainMenuState.MoveUp: for the same reason, its `<= 0` test only ever sees 0.
- `ConsoleKey` is a datatype naming the keys the mapper and the viewer use. Every other key is `Other(code)`, whose code is a `System.ConsoleKey` value that is none of the named keys' values.
- The viewer and `InputActionMapper` disagree:
  - the viewer treats Backspace as back and Q as quit, and the mapper gives both None;
  - the mapper gives Escape the action Escape, and the viewer quits on it.

  Each is modelled as written.
- SongPrompt.Compose: the prompt lines are stated over a `Wording` of the seven fixed lines. GeneratePrompt uses the generator's own wording. This lets the structure lemmas hold for any wording whose lines are told apart, which SongPrompt.FixedUnambiguous proves for the real one.
- WrapByWord's long-word loop, the slide loop and the notes loop of BuildAnnotatedMarkdown, and Render's loops are each their own method: `AppendPieces`, `AppendSlides` and `AppendSection`, and `AppendBorders`, `DrawChunks`, `DrawChunk` and `BuildGlyphLine`. Each mirrors one loop of the source.
- `PresentationStyle.Default` is the constant `Style.Default`, with the six colours of the source.
- Text.Trim: the contract states that the result is trimmed and is empty exactly for a blank input. That the result is a slice of the input with only white space cut away is stated separately by Text.TrimSlice, because every proof that uses Trim would otherwise carry the slice's quantifiers.
- StyleLoader.TryParseHex: the contract states only the shape of a value that parses ('#' and six characters once trimmed). StyleLoader.TryParseHexMeans states the full condition in both directions and the component values.
- Strings are sequences of Unicode scalar values, but C# counts `string.Length` and `foreach` over a string in UTF-16 code units. For a text with characters outside the Basic Multilingual Plane, each such character is one unit in the model and two in the source, so the members on the next five lines differ from the source there.
- Banner.WrapByWord: line lengths and the cut of long words are counted per scalar value, not per UTF-16 unit. Outside the Basic Multilingual Plane a title can wrap into fewer chunks than the source gives.
- Banner.Center: the padding uses the length in scalar values. The source uses the UTF-16 length, so it pads such a text by less.
- Banner.Render: one glyph is drawn per scalar value. The source draws one fallback glyph per surrogate half, so each such character is drawn once, not twice.
- Viewer.PadLeft: totalWidth is compared with the length in scalar values, not in UTF-16 units.
- Viewer.Center: the padding uses the length in scalar values, not the UTF-16 length.
- Notes.RenderBodyLines: `ToDictionary(o => o.LineIndex)` throws `ArgumentException` when two option items of a slide share a line index. The model requires `DistinctLineIndices` and leaves that exception out. Notes.BuildAnnotatedMarkdown and the members that build the slide sections require `WellFormed`, the same condition for every written slide. Nothing in the modelled code rules such duplicates out.
