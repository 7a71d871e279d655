# Markdown editor core, modelled in Dafny

The editor shows a Markdown document as a grid: one row per line, one cell per
inline run. This project models the part of the editor that builds, edits and
styles that grid:

- **Tokenizer** (`src/syntax/text.rs`, `process_markdown`). It standardises the
  input:
  - a literal backslash-`n` becomes the newline placeholder;
  - a tab becomes four spaces;
  - `\r\n` and `\r` become `\n`.

  It then splits the input into lines and turns each line into a row of typed
  runs: a heading, bold text, or plain text. Blank lines become `EmptySpace`
  rows, and one extra `EmptySpace` row closes the grid.
- **Tagger** (`process_text`). It is the second scanner of the same file. It
  skips blank lines and writes each cell as a tagged string: `header<n>|…`,
  `bold|…` or `plain|…`.
- **Grid** (`extract_strings`, `markdown_to_string`). It turns the runs into
  cell strings, and the cells back into one text.
- **Style** (`src/syntax/markdown.rs`). It computes a cell's style (font size,
  weight, width, flex-grow) and renders it as CSS.
- **EditorState** (`src/state.rs`). The document state is a class with three
  fields:
  - the cell texts (`rawText`), padded to at least 20 rows;
  - the caret;
  - the measured widths.

  Editing a cell grows the grid as needed and clamps a caret that sits in that
  cell.
- **Builder** (`src/builder.rs`). `EditorBuilder` owns the state and forwards
  edits to it. It also converts a caret between cell level `(row, col, offset)`
  and row level (one offset across the row's whole text).
- **Handler** (`src/handler.rs`). It models the pure key handlers: backspace
  (which removes a `\r\n` pair as a unit), character input, and Enter.

Loops in the source become methods with loop invariants, each proved equal to a
specification function. Examples: `Tokenizer.ProcessMarkdown` against
`Tokenize`, and `Builder.EditorBuilder.GetCaretFromRowLevelPos` against
`CaretFromRowLevel`. The lemmas then prove what those functions promise:
- one row per line;
- headings recognised exactly when `#`s are followed by a space;
- well-formed bold runs;
- the tokenizer and the tagger agree cell by cell;
- rendering the grid gives the lines back;
- the caret round trip;
- the undo-like key pairs.

Text is `seq<char>` and is taken to be ASCII, so a byte offset and a character
index are the same. Rust's `char::is_whitespace` is modelled by the Unicode
White_Space list.

Some behaviour of the code is easy to misread, and the model keeps it as written:
- `process_markdown` treats a line `# ` with nothing after the space as a
  heading, and a heading's run holds the whole line as written, markers
  included (text.rs:61-80);
- `process_text` accepts any number of `#`s, so it can produce `header7|…`
  (text.rs:171-184);
- the comment at handler.rs:24 says a space typed after a space becomes a
  non-breaking space, but the string inserted at handler.rs:26 is a plain
  space;
- `get_caret_from_row_level_pos` returns the offset inside the cell plus one
  (builder.rs:125). The model keeps that value, and `Builder.RowLevelRoundTrip`
  states the round trip with it.

## Model

| member | source | states |
|---|---|---|
| Strings.Find | src/syntax/text.rs:92 | `str::find`: the result is the first offset where the pattern occurs; none when it occurs nowhere |
| Strings.FindFirst | src/syntax/text.rs:92 | conversely, an occurrence with no earlier one is exactly what `find` returns |
| Strings.Trim | src/syntax/text.rs:49 | `str::trim`: the slice that starts right after the leading whitespace; empty exactly for a blank text, otherwise it starts and ends on non-whitespace |
| Strings.TrimSurround | src/syntax/text.rs:49 | the text is its blank leading whitespace, then the trimmed slice, then a blank tail: `trim` removes whitespace only, from both ends |
| Strings.TrimStartSurround | src/syntax/text.rs:62 | `str::trim_start`: a suffix of the text that starts on non-whitespace, and what it removes is whitespace only |
| Strings.Lines | src/syntax/text.rs:43 | `str::lines`: no line contains a line break |
| Strings.JoinLines | src/syntax/text.rs:43 | for a text without `\r`, the lines joined by `\n` give the text back, less one final line break |
| Strings.LinesChars | src/syntax/text.rs:43 | a character absent from the text is absent from every line |
| Strings.ReplaceRemoves | src/syntax/text.rs:40 | replacing a one-character pattern by a text without it leaves no occurrence of that character |
| Strings.ReplaceChars | src/syntax/text.rs:38-40 | `str::replace` brings in no character that is in neither the text nor the replacement |
| Strings.ReplaceSameLength | src/syntax/text.rs:38-40 | replacing a pattern by itself leaves the text unchanged; a replacement of the pattern's length keeps the text's length |
| Strings.JoinParts | src/syntax/text.rs:270-273 | `join`: the result starts with the first part, then the separator when there is a second part, and ends with the last part |
| Tokens.MakeHeading | src/syntax/text.rs:67-75 | the heading for a count of 1 to 6 `#`s has that level and keeps the header text |
| Tokenizer.Normalize | src/syntax/text.rs:37-40 | the standardised input contains no tab and no carriage return |
| Tokenizer.HashCount | src/syntax/text.rs:63 | the number of leading `#`s: all of them are `#`, and the next character is not |
| Tokenizer.BoldAt | src/syntax/text.rs:89-111 | a bold run found at the cursor is a prefix of the remaining text, opens with the delimiter, closes at the first delimiter after it, and holds at least one character between them |
| Tokenizer.Step | src/syntax/text.rs:84-137 | one scanner step always consumes input and leaves a suffix of the text |
| Tokenizer.MatchBold | src/syntax/text.rs:86-110 | the delimiter loop, `**` before `__`, finds exactly the bold run `TryBold` accepts, or none |
| Tokenizer.ScanStep | src/syntax/text.rs:85-137 | the loop body's emitted runs and remaining text are those of one `Step` |
| Tokenizer.ScanLine | src/syntax/text.rs:83-138 | the inline scan loop produces `ScanInline` of the line |
| Tokenizer.ProcessLine | src/syntax/text.rs:59-142 | a non-blank line's row: the heading row or the inline runs |
| Tokenizer.FlushEmptyRows | src/syntax/text.rs:54-57 | the flush loop appends exactly the pending count of `EmptySpace` rows |
| Tokenizer.ProcessLines | src/syntax/text.rs:43-149 | the line loop with its pending blank-line counter produces `TokenizeLines` |
| Tokenizer.ProcessMarkdown | src/syntax/text.rs:36-151 | `process_markdown` produces `Tokenize(input)` |
| TokenizerFacts.TokenizeRowPerLine | src/syntax/text.rs:47-150 | the grid has one row per standardised line plus a closing `EmptySpace` row; a blank line's row is `[EmptySpace]`, any other line's row is its runs |
| TokenizerFacts.LineRowNonEmpty | src/syntax/text.rs:140-142 | a non-blank line always yields a non-empty row, which is pushed |
| TokenizerFacts.ScanInlineEmpty | src/syntax/text.rs:114-136 | the scan yields no run only for a blank text |
| TokenizerFacts.HeadingLine | src/syntax/text.rs:61-80 | a line is a heading exactly when it starts with 1 to 6 `#`s followed by a space; its run is that heading level holding the whole line |
| TokenizerFacts.TryBoldWellFormed | src/syntax/text.rs:89-111 | a bold match is well formed for `**` or `__` |
| TokenizerFacts.BoldAtComplete | src/syntax/text.rs:89-111 | conversely, a well-formed bold run of a delimiter at the cursor is exactly the run found for it |
| TokenizerFacts.TryBoldComplete | src/syntax/text.rs:89-111 | a well-formed `**` or `__` run at the cursor is exactly the bold run the step picks |
| Tokenizer.NextOpener | src/syntax/text.rs:114-119 | the plain-text cut point, when there is one, is an occurrence of `**` or `__` |
| TokenizerFacts.ScanInlineWellFormed | src/syntax/text.rs:82-138 | every run of a scanned line is a well-formed bold run or non-empty plain text; a blank plain run is only the spaces directly after a bold run |
| TokenizerFacts.EmptyRowsShape | src/syntax/text.rs:54-57 | the flushed rows are `k` copies of `[EmptySpace]` |
| TokenizerFacts.ScanInlineText | src/syntax/text.rs:82-138 | concatenating the runs of a scanned text gives the text back, when its only whitespace is spaces and it starts on a non-space |
| TokenizerFacts.LineRowText | src/syntax/text.rs:59-142 | the same round trip for a whole line's row, headings included |
| TokenizerFacts.ConcatAppend | src/syntax/text.rs:264-274 | the text of two joined runs is the two texts joined |
| TextTagger.TaggedBoldAt | src/syntax/text.rs:193-206 | a tagged bold match is non-empty inner text between two delimiters at the cursor |
| TextTagger.TaggedTryBold | src/syntax/text.rs:193-206 | the first delimiter that matches, with its inner text |
| TaggedFacts.TaggedBoldAtComplete | src/syntax/text.rs:193-206 | a well-formed bold run of a delimiter at the cursor is found, with exactly its inner text |
| TaggedFacts.TaggedTryBoldComplete | src/syntax/text.rs:193-206 | a well-formed `**` or `__` run at the cursor is the delimiter and inner text the tagger picks |
| TextTagger.TaggedStep | src/syntax/text.rs:188-232 | one tagger step always consumes input and leaves a suffix |
| TextTagger.MatchTaggedBold | src/syntax/text.rs:190-204 | the delimiter loop finds exactly the delimiter and inside text `TaggedTryBold` accepts, or none |
| TextTagger.TaggedScanStep | src/syntax/text.rs:189-231 | the loop body's emitted cells and remaining text are those of one `TaggedStep` |
| TextTagger.TaggedScanLine | src/syntax/text.rs:187-232 | the tagger's inline loop produces `TaggedScan` of the line |
| TextTagger.ProcessTextLine | src/syntax/text.rs:164-236 | a line's tagged cells: the header cell or the inline cells |
| TextTagger.ProcessText | src/syntax/text.rs:153-240 | `process_text` produces `TaggedText(input)` |
| TaggedFacts.TaggedHeadingIff | src/syntax/text.rs:171-184 | a line gives a header cell exactly when it starts with at least one `#`, then a space, then non-blank text; the cell is `header<n>\|` followed by that text trimmed |
| TaggedFacts.TaggedScanEmpty | src/syntax/text.rs:208-230 | the tagger emits no cell only for a blank text |
| TaggedFacts.TaggedRowNonEmpty | src/syntax/text.rs:234-236 | a non-blank line always gives a non-empty row |
| TaggedFacts.NonBlankLines | src/syntax/text.rs:166-169 | the lines kept are non-blank and no more than the input lines |
| TaggedFacts.TaggedLinesRows | src/syntax/text.rs:163-237 | the rows are the tagged rows of the non-blank lines, in order |
| TaggedFacts.TaggedTextRowPerLine | src/syntax/text.rs:153-240 | `process_text` has one row per non-blank standardised line |
| TaggedFacts.TaggedScanCells | src/syntax/text.rs:186-232 | every cell is `bold\|` with non-empty text, or `plain\|` with non-empty text that neither starts nor ends with whitespace |
| TaggedFacts.TrimBlankPrefix | src/syntax/text.rs:217 | a blank prefix does not change the trimmed text |
| TaggedFacts.TaggedScanBlankPrefix | src/syntax/text.rs:208-230 | a blank prefix does not change the tagger's cells |
| TaggedFacts.BoldAtAgrees | src/syntax/text.rs:89-111 | both scanners find a bold run at the same places; the tokenizer's run is the tagger's text between delimiters |
| TaggedFacts.TryBoldAgrees | src/syntax/text.rs:193-206 | both scanners pick the same delimiter and the same bold text |
| TaggedFacts.StepAgrees | src/syntax/text.rs:188-232 | one tokenizer step tagged equals one tagger step, and both leave texts the tagger treats alike |
| TaggedFacts.TaggedScanAgrees | src/syntax/text.rs:186-232 | the tagger's cells are exactly the tokenizer's runs of the same text, each tagged |
| TaggedFacts.TaggedRowAgrees | src/syntax/text.rs:171-236 | for a line neither scanner takes as a heading, `process_text`'s row is `process_markdown`'s row tagged |
| Grid.ExtractRow | src/syntax/text.rs:245-259 | one cell per run, holding the run's text |
| Grid.ExtractStrings | src/syntax/text.rs:242-262 | the same shape as the grid, each cell the text of its run |
| Grid.RowStrings | src/syntax/text.rs:265-272 | one string per row, the row's cells joined |
| Grid.JoinExtractRow | src/syntax/text.rs:264-274 | a row's joined cell strings are its runs' texts concatenated |
| Grid.MarkdownToString | src/syntax/text.rs:264-274 | when the rows' texts hold no line break and the last row is empty, as the closing row is, splitting the result into lines gives every other row's text back, less one trailing `\r` |
| Grid.LinesOfJoin | src/syntax/text.rs:264-274 | splitting rows joined by `\n` gives the rows back, each without one trailing `\r` |
| Grid.RowStringsOfTokenize | src/syntax/text.rs:242-274 | a reproducible input's rendered rows are its lines, blank ones empty, then an empty row |
| Grid.RenderRoundTrip | src/syntax/text.rs:36-274 | `markdown_to_string(extract_strings(process_markdown(s)))`, split into lines, gives the standardised lines of `s`, blank ones empty |
| Style.FontSize | src/syntax/markdown.rs:47-59 | font size between 16 and 32; 16 for every run that is not a heading |
| Style.FontSizeByLevel | src/syntax/markdown.rs:47-59 | a deeper heading is never larger, and a strictly deeper one is smaller |
| Style.ComputeStyleProps | src/syntax/markdown.rs:22-89 | text is the run's text; bold exactly for headings and bold runs; color black; flex-grow 1 exactly for the last column, else 0; width `auto` exactly when unmeasured, and `<w>px` for a measured width `w` |
| Style.ComputeStyleString | src/syntax/markdown.rs:91-99 | inline CSS with exactly five declarations, in order: font size in `px`, color, weight `bold` or `normal`, the width field with one more `px`, and the grow factor |
| Style.CellStyleString | src/syntax/markdown.rs:91-99 | the full CSS text of a cell, including the doubled `pxpx` / `autopx` the width field gets |
| Handler.Backspace | src/handler.rs:1-19 | at offset 0 nothing changes; otherwise a block of one or two characters is cut out at the new caret, which is at or left of the old one, and the text before and after the block is kept |
| Handler.BackspaceSingle | src/handler.rs:10-14 | away from any `\r\n` pair, exactly the character before the caret is removed and the caret moves back by one |
| Handler.BackspacePair | src/handler.rs:2-9 | a caret inside `\r\n` deletes the pair and moves back by 1; a caret right after it deletes the pair and moves back by 2 |
| Handler.CharacterInput | src/handler.rs:21-35 | the character is inserted at the caret, text before and after is kept, and the caret moves past it |
| Handler.InputThenBackspace | src/handler.rs:1-35 | typing one character other than `\r` or `\n`, then backspace, restores text and caret |
| Handler.LeftTrimmed | src/handler.rs:42 | the text before the caret, without its trailing `\r` exactly when it ends with one |
| Handler.RightTrimmed | src/handler.rs:43 | the text after the caret, without its leading `\n` exactly when it starts with one |
| Handler.EnterKey | src/handler.rs:38-57 | `\r\n` sits right before the new caret, between the trimmed left and right parts |
| Handler.EnterThenBackspace | src/handler.rs:1-57 | Enter then backspace removes the inserted break, joining the trimmed parts with the caret at the join |
| Handler.EnterIgnoresRepeat | src/handler.rs:45-54 | the result does not depend on whether the previous key was Enter |
| EditorState.PadRows | src/state.rs:36-39 | at least 20 rows; the grid is a prefix; the added rows are one empty cell |
| EditorState.NoWidths | src/state.rs:41-43 | one unmeasured width per cell |
| EditorState.GrowRows | src/state.rs:57-59 | enough rows for index `i`; the grid is a prefix; new rows are empty |
| EditorState.GrowCells | src/state.rs:60-62 | enough cells for index `j`; the row is a prefix; new cells are empty strings |
| EditorState.UpdatedGrid | src/state.rs:56-63 | cell `(i, j)` holds the text; every other cell keeps its text or is a new empty one; the grid grows only as far as needed |
| EditorState.ClampedCaret | src/state.rs:65-70 | a caret in the edited cell keeps its cell and has its offset clamped to the new length; any other caret is unchanged |
| EditorState.UpdateKeepsCaret | src/state.rs:56-70 | after an edit, a caret that was on a cell, or within its text, still is |
| EditorState.UpdateTwice | src/state.rs:56-63 | editing a cell twice equals the second edit alone |
| EditorState.State.constructor | src/state.rs:28-53 | the cells are the runs' texts of the tokenized input, padded to 20 rows; no width is measured |
| EditorState.State.UpdateText | src/state.rs:56-71 | the grid becomes `UpdatedGrid`, the caret `ClampedCaret`, and the widths are untouched |
| EditorState.State.MoveCaret | src/state.rs:74-80 | the caret is set only when the cell exists, and cleared otherwise |
| EditorState.State.ClearCaret | src/state.rs:83-85 | the caret is cleared and nothing else changes |
| Builder.EditorBuilder.constructor | src/builder.rs:34-40 | the builder owns the given state |
| Builder.EditorBuilder.GetRawTextCurrent | src/builder.rs:61-68 | the text of the cell under the caret, or `error` without a caret |
| Builder.EditorBuilder.UpdateText | src/builder.rs:71-73 | forwards to the state, with the state's guarantees |
| Builder.EditorBuilder.MoveCaret | src/builder.rs:76-78 | forwards to the state, with the state's guarantees |
| Builder.EditorBuilder.ClearCaret | src/builder.rs:81-83 | forwards to the state, with the state's guarantees |
| Builder.EditorBuilder.GetCaretPos | src/builder.rs:86-88 | the state's caret |
| Builder.RowLevelPos | src/builder.rs:97-111 | none exactly without a caret; otherwise at least the caret's own offset |
| Builder.EditorBuilder.GetRowLevelCaretPos | src/builder.rs:97-111 | the summing loop gives the lengths of the cells before the caret plus its offset |
| Builder.PrefixMonotone | src/builder.rs:100-104 | the length of the cells before a column never decreases with the column |
| Builder.CaretFromRowLevelSpec | src/builder.rs:113-138 | none exactly for an empty row; otherwise a caret in that row on an existing cell; inside the text it is the first cell whose end lies past the offset, with the offset into the cell plus one; past the text it is the end of the last cell |
| Builder.EditorBuilder.GetCaretFromRowLevelPos | src/builder.rs:113-138 | the walking loop with its early return computes `CaretFromRowLevel` |
| Builder.RowLevelRoundTrip | src/builder.rs:97-138 | flattening a caret before the end of its cell and mapping it back gives the same cell, offset plus one |

## Left out

- Tokenizer.NextOpener: its contract says only that the cut point is an occurrence of a delimiter; that it is the earliest one, as `min_by_key` picks it, follows from the contract of `Find` and is not restated.
- The user interface, the JavaScript bridge and the background tasks (`src/main.rs`, `src/coroutines.rs`, `assets/*.js`): they are I/O and asynchronous messaging.
- `EditorBuilder.send_uci_command` and the builder's `uci_action_tx` field: this is a message channel to another task.
- `EditorBuilder.get_raw_text_vec`: this only returns a reference to the grid field, which the model reads directly.
- The `println!` in `State::new`: console output.
- The `language` field of `TextProcessor`, and its `new`: no operation reads the field.
- The free function `process_text` at text.rs:318-405: it is a copy of the method `process_text`, and the method is modelled once as `TextTagger.ProcessText`.
- The unit tests at text.rs:281-314: they do not match the code. The code ends every result with an `[EmptySpace]` row (text.rs:149) and gives the blank line of the second test an `[EmptySpace]` row of its own (text.rs:54-57); the tests expect neither. The first test also expects `PlainText(" more text")` after the bold run, but the code (text.rs:99-108) emits `PlainText(" ")` for the spaces and then `PlainText("more text")`.
- Measured widths are `f64` in the source. They are modelled as whole pixels (`Option<nat>`), so fractional widths and Rust's float formatting are not modelled.
- The source slices strings by byte offset. The model treats text as ASCII, so non-ASCII text and the panics on a slice inside a character are not modelled.
- `usize` overflow of offsets and counters is not modelled; integers are unbounded.
- Style.ComputeStyleProps: requires `numCols >= 1`. With no columns the source's `num_cols - 1` underflows: a build with overflow checks panics, and a build without them wraps, so the comparison fails and the grow factor is 0. The only caller passes `inner.len()` from inside the loop over `inner` (main.rs:1019-1024), so at least one column is present at every call and the requirement excludes no input that reaches the function.
- Handler.Backspace, Handler.CharacterInput, Handler.EnterKey: require the caret to lie within the text. Beyond the text the source panics on the slice or `split_at`.
- Builder.EditorBuilder.GetRowLevelCaretPos: requires the caret's row to exist and its column to be at most the row's length. Otherwise the source's indexing panics.
- Builder.EditorBuilder.GetRawTextCurrent: requires the caret to be on an existing cell. Otherwise the source's indexing panics.
- Grid.RenderRoundTrip: only covers inputs whose lines are blank, or start on a non-space and use no whitespace but plain spaces. Other lines can come back changed in two ways. Blanks at the start of a line are dropped when a `**` or `__` follows them directly, because a blank plain run is not emitted (text.rs:122-126). Whitespace right after a bold run comes back as the same number of plain spaces (text.rs:99-103), so a non-space whitespace character there changes.
- TaggedFacts.TaggedRowAgrees: only covers lines that neither scanner treats as a heading. The two scanners format headings differently.
