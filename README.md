# Heading detection for PDF manuals, modelled in Dafny

`detect_headings.py` reads a PDF's word tokens and infers its headings in four steps.

1. **Font profile.** It builds a histogram of the font sizes rounded to one decimal. The most frequent size is taken as body text. The heading sizes are the sizes more than 0.5 above it that occur at least three times, largest first (`analyze_font_sizes`).
2. **Headings.** It groups each page's words into visual lines by rounded `top`. Each line is joined from left to right and classified by its median font size and two text patterns (`extract_headings`, `classify_line_level`). The records are then sorted by page and `top`.
3. **Section bodies.** For every heading it collects the body lines of its section. The section runs to the next heading of the same or a shallower level, or to the end of the document. Those lines are typed as bullet, table row, paragraph or blank (`extract_lines_from_page`, `assemble_line`) and rendered as light HTML (`format_lines_as_html`, `attach_section_html`).
4. **Tree.** It builds the heading tree with a stack: each heading becomes a child of the nearest earlier heading with a lower level (`build_tree`).

## How the model is organised

The project is one Dafny module per concern:

| module | models |
|---|---|
| `Wrappers` | `Option` and `Result` |
| `Seqs` | generic slicing and concatenation facts used by the proofs |
| `Text` | the Python string built-ins the detector uses |
| `Words` | word tokens, rounding to tenths, the vertical bounds and the grouping into lines |
| `FontProfile` | `analyze_font_sizes` |
| `Classify` | `classify_line_level` |
| `Headings` | `extract_headings` |
| `Content` | `assemble_line` and `extract_lines_from_page` |
| `Html` | `format_lines_as_html` |
| `Sections` | `attach_section_html` |
| `Tree` | `build_tree` |

The `Text` module models `str.strip`/`lstrip`, `" ".join`, `re.split(r"\s{2,}")` and `html.escape`.

Each loop of the source is a `method` with loop invariants. Each method is proved equal to a specification function, and the properties the code promises are proved about those functions as lemmas. The `enumerate` search of `classify_line_level`, for instance, is the method `Classify.FindTier`, proved equal to the recursive function `Classify.FirstTier` that the rest of the classification uses.

- **The HTML writer.** The buffers of `format_lines_as_html` and its two closures become a class, `Html.HtmlWriter`. Its fields `parts`, `listBuffer` and `tableBuffer` are updated in place.
- **Section bodies.** `attach_section_html` writes the markup into an `array<Heading>`.
- **The tree.** `build_tree` keeps the tree and the stack as values: `Tree.AttachAt` stands for appending to the last child list.
- **What the output means.** Two independent descriptions stand beside the state machines:
  - the HTML is also computed as a list of blocks (`Html.Blocks`, `Html.RenderAll`);
  - the tree is defined by sections (`Tree.Forest`: a heading's subtree holds the headings of its section).

  The proofs show that the state machines agree with these descriptions.

**Numbers.** Word coordinates and sizes are `real`. `round(x, 1)` is modelled as an integer count of tenths, `floor(10·x + 0.5)`. A heading's `top` is stored as that count. Font sizes in the profile are tenths too: "size > body + 0.5" reads `x > body + 5`.

**Inputs.** A document is passed in as `seq<seq<Word>>`, one list of words per page. A word's `size` is `None` when it does not read as a number. The size tolerance `size_tol` is a free parameter `tol` of every member that classifies or extracts; the source's default of 0.6 (lines 78 and 120) is not fixed in the model.

## Model

| member | source | states |
|---|---|---|
| Words.TenthsMonotone | detect_headings.py:149 | rounding to one decimal never reverses the order of two coordinates |
| Words.Tenths | detect_headings.py:149 | `round(top, 1)` as a count of tenths, halves rounding up; Words.TenthsMonotone and Sections.TenthsBounds state what it preserves |
| Words.InsertByX0 | detect_headings.py:155 | inserting a word into an x0-ordered line keeps it ordered and adds exactly that word |
| Words.SortByX0 | detect_headings.py:243 | `sorted(line_words, key=x0)`: the result is in x0 order and is a permutation of the line's words |
| Words.InsertByX0Stable | detect_headings.py:155 | inserting a word places it after every word with the same x0, so the words at one x0 keep their order |
| Words.SortByX0Stable | detect_headings.py:155 | `sorted` is stable: the words that share an x0 come out in their input order |
| Words.InsertKey | detect_headings.py:242 | adding a key to a strictly ascending key list keeps it strictly ascending; it holds exactly the old keys plus the new one |
| Words.TopKeys | detect_headings.py:242 | `sorted(grouped.keys())`: strictly ascending, and holds exactly the rounded tops of the words |
| Words.Bucket | detect_headings.py:239 | `grouped[k]` holds exactly the words whose rounded top is `k`; it is non-empty exactly when some word has that key |
| Words.BucketAppend | detect_headings.py:239 | `grouped[k]` keeps the input order: the bucket of a concatenation is the bucket of the first part followed by that of the second |
| Words.AdmittedWords | detect_headings.py:233-237 | a word survives the bounds exactly when it is not above `min_top - 0.2` and not at or below `max_top - 0.2` |
| Words.AdmittedAppend | detect_headings.py:233-237 | the bounds keep the input order: the admitted words of a concatenation are those of the first part followed by those of the second |
| Words.LinesShape | detect_headings.py:231-243 | the lines of a page run strictly top to bottom and none is empty; a line holds exactly the admitted words with its key; every admitted word lies in some line |
| Words.Lines | detect_headings.py:241-243 | the admitted words grouped into lines by rounded top, in ascending key order; Words.LinesShape and Words.GroupLines state its properties |
| Words.AppendTo | detect_headings.py:239 | `setdefault(key, []).append(w)` appends `w` to the bucket of `key`, creating it if missing, and leaves every other bucket unchanged |
| Words.GroupedStep | detect_headings.py:232-239 | one more word keeps the dict and the key list in step with the words seen so far |
| Words.BucketWords | detect_headings.py:231-239 | the grouping loop yields exactly the buckets and the ascending keys of the admitted words |
| Words.GroupLines | detect_headings.py:241-243 | reading the buckets in ascending key order yields the lines of the page |
| FontProfile.ScanCount | detect_headings.py:39-43 | all pages are scanned, or `min(sample_pages, n_pages)` when a limit is given; a negative limit gives an empty range |
| FontProfile.Distinct | detect_headings.py:59 | the Counter's keys: no duplicates, and exactly the sizes seen |
| FontProfile.CountsOfCorrect | detect_headings.py:36-53 | the Counter holds exactly the sizes read, each mapped to its number of occurrences |
| FontProfile.FirstMax | detect_headings.py:59 | `max(items, key=count)` returns a key with the largest count; every key before it in key order has a strictly smaller count |
| FontProfile.InsertDesc | detect_headings.py:62-69 | inserting into a strictly descending list keeps it strictly descending; its elements are the old ones plus the new one |
| FontProfile.HeadingSizes | detect_headings.py:62-69 | strictly descending, and holds exactly the keys above body + 0.5 with a count of at least 3 |
| FontProfile.ProfileFails | detect_headings.py:55-56 | profiling fails exactly when no size was read |
| FontProfile.ProfileOf | detect_headings.py:55-71 | the profile of the sizes read: the failure when there is none, else the first mode, the heading sizes and the Counter; FontProfile.ProfileFails, BodySizeIsFirstMode and HeadingSizesCorrect state its properties |
| FontProfile.BodySizeIsFirstMode | detect_headings.py:58-59 | the body size was read; no size occurs more often; every size first seen before it occurs strictly less often |
| FontProfile.HeadingSizesCorrect | detect_headings.py:61-69 | the heading sizes are strictly descending, are exactly the sizes above body + 0.5 read at least three times, and all lie above the body size |
| FontProfile.DistinctOrder | detect_headings.py:59 | the keys keep first-occurrence order: a size first seen earlier comes earlier |
| FontProfile.TallyStep | detect_headings.py:53 | `size_counts[round(sz, 1)] += 1` adds one to that size's count and appends it to the key order if it is new |
| FontProfile.TallyPage | detect_headings.py:48-53 | the word loop of a page adds exactly the page's readable sizes to the Counter and its key order |
| FontProfile.AnalyzeFontSizes | detect_headings.py:30-71 | the histogram loop over the scanned pages yields the profile of the sizes read: the failure when there is none, else the body size, the heading sizes and the Counter |
| Classify.DigitRun | detect_headings.py:100-102 | the leading run of ASCII digits `0`-`9`, which stand for `\d`: all digits, and not followed by one |
| Classify.UpperSection | detect_headings.py:100 | `^\d+\.\s+[A-Z0-9 ,()/\-]+$` on the stripped text: digits, a dot, whitespace, then only capitals, digits, spaces and `,()/-` to the end; Classify.PatternsExclusive and LevelByTier are about it |
| Classify.Subsection | detect_headings.py:102 | `^\d+\.\d+` on the stripped text: digits, a dot and a digit; Classify.PatternsExclusive and LevelByTier are about it |
| Classify.Within | detect_headings.py:89 | `abs(median_size - h_size) <= size_tol` with the heading size in tenths; FirstTier and ClassifyLineLevel are stated with it |
| Classify.PatternsExclusive | detect_headings.py:108-113 | the "N. CAPS" and "N.M" patterns never both match, so the order of the tests does not matter |
| Classify.FirstTier | detect_headings.py:86-91 | the 1-based index of the first heading size within `size_tol` of the median; absent exactly when no size is within `size_tol` |
| Classify.FindTier | detect_headings.py:86-91 | the `enumerate` loop, stopping at the first size within the tolerance, returns the tier that FirstTier specifies |
| Classify.ClassifyLineLevel | detect_headings.py:74-116 | the line is a heading exactly when some heading size is within tolerance; a level is at least 1; it is 1 exactly for the first tier |
| Classify.LevelByTier | detect_headings.py:104-116 | tier 1 gives level 1; for a later tier, "N. CAPS" text gives 2, else "N.M" text gives 3, else the tier number itself |
| Headings.SortReals | detect_headings.py:161 | the sort used for the median is ordered and is a permutation |
| Headings.InsertReal | detect_headings.py:161 | inserting into a sorted list of sizes keeps it sorted and adds exactly that value |
| Headings.Median | detect_headings.py:161 | `statistics.median` lies between the smallest and the largest size; a line of one size has that size as its median |
| Headings.MiddleSplits | detect_headings.py:161 | in an ascending list, at least half of the elements (rounded up) are at most the middle value and at least half are at least it |
| Headings.MedianSplits | detect_headings.py:161 | the median is the middle size, or the mean of the two middle sizes, of the sizes in ascending order; at least half of the sizes (rounded up) are at most it and at least half are at least it |
| Headings.LineSizes | detect_headings.py:160 | `[float(w["size"]) ...]` succeeds exactly when every size is a number, and keeps them in order |
| Headings.LineHeading | detect_headings.py:153-183 | an error names the page being read; an accepted heading has level at least 1 and stripped, non-empty text of at most 160 characters |
| Headings.SortKeepsWords | detect_headings.py:155 | sorting a line by x0 keeps exactly its words |
| Headings.LineSizesFail | detect_headings.py:160 | the size conversion fails exactly when some word's size is not a number |
| Headings.LineHeadingRaises | detect_headings.py:156-160 | a line raises exactly when its joined text is not blank and some word's size is not a number |
| Headings.LineHeadingKeeps | detect_headings.py:155-183 | both directions: a line with blank text is skipped; a kept line carries its stripped joined text, at most 160 characters long, and the level that classify_line_level gives its median size; a line with non-blank text of at most 160 characters, numeric sizes and a level is kept |
| Headings.Judge | detect_headings.py:153-183 | every line of a page paired with the verdict of the loop body, one per line; JudgeSound and JudgedPageAt state its properties |
| Headings.InsertSorted | detect_headings.py:186 | inserting a record keeps the list in (page, top) order |
| Headings.InsertPermutes | detect_headings.py:186 | inserting a record adds exactly that record |
| Headings.SortByPageTopCorrect | detect_headings.py:186 | `headings.sort(key=(page, top))` puts the records in (page, top) order and is a permutation |
| Headings.SortSortedIsIdentity | detect_headings.py:186 | the sort, which is stable, leaves a list already in (page, top) order unchanged |
| Headings.CollectErrPrefix | detect_headings.py:160 | once a line of a page raises, the rest of the page does not change the outcome |
| Headings.ScanPagesErr | detect_headings.py:141-183 | once a page raises, the whole extraction ends with that error |
| Headings.ScanPagesTurn | detect_headings.py:141-183 | one page turn: an error ends the scan with that error, else the scan continues from the page's result |
| Headings.TakeValid | detect_headings.py:173-183 | appending a record numbered `len(headings)` keeps every record well formed and the list in reading order |
| Headings.CollectValid | detect_headings.py:153-183 | the lines of a page, taken top to bottom, keep the list well formed and in reading order |
| Headings.ScanPagesValid | detect_headings.py:141-183 | a successful scan of any number of pages yields well-formed records in reading order |
| Headings.PageLinesTopToBottom | detect_headings.py:146-153 | the lines of each page are visited with strictly ascending rounded tops |
| Headings.JudgeSound | detect_headings.py:153-183 | a page's lines, visited top to bottom with their verdicts, satisfy what CollectValid needs |
| Headings.JudgedPagesSound | detect_headings.py:153-183 | every page's lines, together with their verdicts, satisfy what CollectValid needs |
| Headings.ReadingOrderIsSorted | detect_headings.py:185-186 | a list in strict reading order is sorted by (page, top) |
| Headings.ExtractedHeadingsValid | detect_headings.py:119-187 | every record of a successful extraction is numbered by its position, lies on a scanned page, has a level and short stripped text; the list is in strict (page, top) order; the final sort does not move any record |
| Headings.TakeComplete | detect_headings.py:173-183 | a turn that does not raise keeps the list so far and appends only the record of its line, if it keeps the line |
| Headings.CollectComplete | detect_headings.py:153-183 | a page that does not raise extends the list, no line on it raised, and every line it keeps has its record |
| Headings.CollectOrigin | detect_headings.py:153-183 | every record a page appends is the record of one of its kept lines |
| Headings.ScanPagesComplete | detect_headings.py:141-183 | after a scan that does not raise, every kept line of every scanned page has its record, with that page number |
| Headings.ScanPagesOrigin | detect_headings.py:141-183 | every record of a scan that does not raise is the record of a kept line of a scanned page |
| Headings.JudgedLineAt | detect_headings.py:141-165 | the verdict of line `i` of page `p` is LineHeading of that line on page `p + 1` |
| Headings.ExtractedHeadingsComplete | detect_headings.py:119-187 | in a successful extraction no line of a scanned page raised, and every line LineHeading keeps has a record at some position `k` with id `k`, its page, its key as top, and its candidate's level, median size and text |
| Headings.ExtractedHeadingsOrigin | detect_headings.py:119-187 | every record of a successful extraction is, field for field, the record of a line that LineHeading keeps on a scanned page |
| Headings.ExtractionOf | detect_headings.py:119-187 | the whole of extract_headings as a function; ExtractedHeadingsValid, ExtractedHeadingsComplete and ExtractedHeadingsOrigin state what it returns, and ExtractHeadings computes it |
| Headings.ExtractHeadings | detect_headings.py:119-187 | the two-pass extraction equals its functional specification: the profile, then the page loop, then the sort, with the errors of each step |
| Headings.ScanAllPages | detect_headings.py:141-183 | the page loop equals the fold of the per-page scans, stopping at the first error |
| Headings.ScanPageOf | detect_headings.py:141-153 | one page turn scans that page's lines, numbered from 1 |
| Headings.ScanPage | detect_headings.py:153-183 | the line loop of a page equals the fold over its judged lines |
| Headings.ScanLine | detect_headings.py:155-183 | one line either raises, is skipped, or appends a record with the next id |
| Text.StripLeft | detect_headings.py:285 | `lstrip()` drops exactly the leading whitespace: the result is a suffix, what was dropped is whitespace, and it does not start with whitespace |
| Text.StripRight | detect_headings.py:212 | `rstrip()` drops exactly the trailing whitespace |
| Text.Strip | detect_headings.py:156 | `strip()` is empty exactly for all-whitespace text; otherwise it starts and ends with a non-space character |
| Text.Join | detect_headings.py:156 | `sep.join(parts)`; Headings.LineHeadingRaises and LineHeadingKeeps are stated with it |
| Text.LStripChars | detect_headings.py:285 | `lstrip(chars)` drops exactly the leading characters in `chars` |
| Text.FirstWide | detect_headings.py:270 | the leftmost start of a run of at least two whitespace characters at or after a position |
| Text.SkipSpace | detect_headings.py:270 | the greedy end of a whitespace run |
| Text.SplitWide | detect_headings.py:270 | `re.split(r"\s{2,}", s)` gives at least one piece, and no piece holds a run of two whitespace characters |
| Text.SplitWideKeepsText | detect_headings.py:270 | splitting only removes whitespace: the visible characters of the pieces, in order, are those of the input |
| Text.Separators | detect_headings.py:270 | the whitespace runs the split cuts out, one fewer than the pieces |
| Text.SplitWideRebuilds | detect_headings.py:270 | the pieces glued back with the cut runs give the input; every run is at least two whitespace characters, and is maximal: the piece before it does not end, and the piece after it does not start, with whitespace |
| Text.StripKeepsText | detect_headings.py:212 | stripping only removes whitespace |
| Text.Escape | detect_headings.py:260 | `html.escape` output contains no `<`, `>`, `"` or `'` |
| Text.EscapeRoundTrip | detect_headings.py:269 | escaping loses nothing: decoding the five character references gives back the text |
| Content.LargeGapsBound | detect_headings.py:200-206 | there are fewer large gaps than words |
| Content.SeparatorInvisible | detect_headings.py:204-208 | the separator between two words, one space or four, is whitespace |
| Content.RawKeepsText | detect_headings.py:199-211 | the joined text holds exactly the words' visible characters, in order |
| Content.AssembledLineKinds | detect_headings.py:194-222 | each of the four line types, both directions: blank exactly when the joined text is whitespace (and then the text is empty); bullet exactly when the stripped text opens with a bullet character; table exactly when it does not and there are at least two large gaps (then the text is unstripped); otherwise a paragraph with the stripped text |
| Content.AssembledLine | detect_headings.py:194-222 | `assemble_line` as a function; AssembledLineKinds and AssembledLineKeepsText state its properties, and AssembleLine computes it |
| Content.AssembledLineKeepsText | detect_headings.py:194-222 | a line's text keeps every visible character of its words, in order, and adds none |
| Content.AssembleLine | detect_headings.py:194-222 | the pairwise loop collecting segments and counting gaps returns the specified line |
| Content.NonBlankLinesHaveText | detect_headings.py:244-246 | no returned line has empty text or the blank type |
| Content.PageTextLinesHaveText | detect_headings.py:225-247 | every line a page returns has text and a non-blank type |
| Content.OnlyAdmittedWordsContribute | detect_headings.py:228-239 | filtering the page by the bounds first gives the same lines; the early return for a page without words agrees with the general path |
| Content.AdmitAllIsIdentity | detect_headings.py:234-237 | with no bounds every word is kept |
| Content.ExtractLinesFromPage | detect_headings.py:225-247 | the page function returns the non-blank assembled lines of the admitted words, top to bottom |
| Content.TextLines | detect_headings.py:241-247 | the loop over the sorted keys keeps the assembled lines with text, in key order |
| Html.EscapeEach | detect_headings.py:260 | one escaped item per list item, in order |
| Html.Item | detect_headings.py:285-286 | a bullet's list item: the text without its leading bullet characters and spaces, stripped, or the stripped text if nothing is left; BlocksKeepLines is stated with it |
| Html.Cells | detect_headings.py:268-272 | the cells of a table row: its stripped text split at wide whitespace runs; CellsOfPieces states what they are |
| Html.CellsOf | detect_headings.py:268-272 | at most one cell per split piece |
| Html.CellsOfPieces | detect_headings.py:268-272 | both directions: a cell is the escaped, stripped text of a split piece that is not blank, and every such piece gives a cell |
| Html.TableRowsOfCells | detect_headings.py:266-274 | both directions: every `<tr>` is the row of a buffered line that has a cell, and every such line gives one |
| Html.TableRows | detect_headings.py:266-274 | at most one `<tr>` per buffered row: rows without a cell are dropped |
| Html.RunTracks | detect_headings.py:279-304 | after any prefix of the lines, at most one buffer is in use; it holds the still-open last block, and the parts emitted so far are the rendering of the blocks before it |
| Html.Step | detect_headings.py:279-301 | one turn of the line loop on the buffers; Html.HtmlWriter.Feed computes it and RunTracks relates it to the blocks |
| Html.Run | detect_headings.py:279-301 | the buffers after the line loop; RunTracks and BuffersExclusive state its invariants |
| Html.FormatHtml | detect_headings.py:279-309 | the final flushes and the placeholder; FormatHtmlRendersBlocks and PlaceholderIffNothingEmitted state what it returns, and FormatLinesAsHtml computes it |
| Html.BuffersExclusive | detect_headings.py:283-292 | the list buffer and the table buffer are never both non-empty |
| Html.FormatHtmlRendersBlocks | detect_headings.py:250-309 | the result is the rendering of the blocks of the lines, or the placeholder when that rendering is empty; it is never empty |
| Html.RenderShape | detect_headings.py:261-301 | a non-empty block rendering (`<p>`, `<ul>` or `<table>`) has a non-space third character |
| Html.RenderAllShape | detect_headings.py:301 | a non-empty rendering of blocks has a non-space third character, so it cannot be the placeholder |
| Html.PlaceholderIffNothingEmitted | detect_headings.py:306-307 | both directions: the placeholder is returned exactly when the blocks render to nothing |
| Html.NotPlaceholder | detect_headings.py:306-309 | text whose third character is not a space is not the placeholder |
| Html.BlocksKeepLines | detect_headings.py:279-301 | the blocks lose and reorder nothing: one list item per bullet line, one row per table line, one paragraph per line with visible text, in line order |
| Html.BlocksMaximal | detect_headings.py:283-297 | a run is never split: no two neighbouring blocks are both lists or both tables |
| Html.StepMaximal | detect_headings.py:283-301 | one more line never leaves two lists or two tables side by side |
| Html.HtmlWriter.constructor | detect_headings.py:252-254 | the writer starts with no parts and both buffers empty |
| Html.HtmlWriter.FlushList | detect_headings.py:258-262 | `flush_list`: a non-empty list buffer becomes one `<ul>` part and is cleared; otherwise nothing changes |
| Html.HtmlWriter.FlushTable | detect_headings.py:264-277 | `flush_table`: a non-empty table buffer becomes one `<table>` part, or none when no row has a cell, and is cleared |
| Html.HtmlWriter.PushItem | detect_headings.py:286 | the item is appended to the list buffer and nothing else changes |
| Html.HtmlWriter.Feed | detect_headings.py:279-301 | one loop turn over a line: a bullet flushes the table and buffers its item; a table row flushes the list and is buffered; any other line flushes both and emits a paragraph when it has visible text |
| Html.ListMarkup | detect_headings.py:260-261 | the `<ul>` markup built item by item equals the list rendering |
| Html.TableMarkup | detect_headings.py:265-276 | the table loop emits the specified table part, or nothing |
| Html.RowMarkup | detect_headings.py:266-274 | the row loop yields the `<tr>` of every row that has a cell, in order |
| Html.FormatLinesAsHtml | detect_headings.py:250-309 | the writer loop, the final flushes and the placeholder equal the specified markup |
| Sections.CloserFrom | detect_headings.py:325-332 | the scan for the closing heading from a position: the first later heading at the same or a shallower level |
| Sections.Closer | detect_headings.py:325-332 | the found heading is no deeper than the current one and every heading before it is deeper; nothing is found exactly when every later heading is deeper |
| Sections.CloserIsFirst | detect_headings.py:325-332 | both directions: a position closes the section exactly when the scan finds it |
| Sections.SpanEnds | detect_headings.py:318-332 | the span starts at the heading's page and `top`; it ends at the closing heading's page and `top`; with no closer it ends at the last page and has no end `top` |
| Sections.FindSpanEnd | detect_headings.py:318-332 | the scan loop over `headings[idx+1:]` returns the specified span end |
| Sections.SectionEnd | detect_headings.py:325-332 | in list positions: the end of a section is after it; every heading inside is deeper; the one at the end is no deeper |
| Sections.SectionsNest | detect_headings.py:325-332 | sections nest: a heading inside a section is deeper and its own section ends no later |
| Sections.TenthsBounds | detect_headings.py:149 | a coordinate lies within half a tenth of its rounding |
| Sections.OwnLineExcluded | detect_headings.py:339-340 | on the start page, the words of the heading's own line fall above `start_top + 0.5` minus the 0.2 margin, so they are dropped |
| Sections.CloserLineExcluded | detect_headings.py:341-342 | on the end page, the words of the closing heading's line are dropped by `max_top` |
| Sections.MiddlePagesWhole | detect_headings.py:335-343 | a page strictly between the first and the last page of the span is read without bounds |
| Sections.SpanWithin | detect_headings.py:335-336 | every page the span visits exists |
| Sections.GatherSectionLines | detect_headings.py:334-344 | the page loop concatenates the lines of every page of the span, with `min_top` on the first page and `max_top` on the last |
| Sections.SectionMarkup | detect_headings.py:317-346 | the body markup of one heading is the formatted lines of its span |
| Sections.SectionHtml | detect_headings.py:334-346 | the body markup of heading `i`, formatted from the lines of its span; AttachOne and AttachSectionHtml are stated with it |
| Sections.AttachOne | detect_headings.py:317-346 | one turn sets the content of the heading at `idx` to its section's markup and leaves every other entry unchanged |
| Sections.AttachSectionHtml | detect_headings.py:312-346 | every heading gains exactly its section's markup as content; no other field and no other entry changes |
| Tree.ForestPreorder | detect_headings.py:349-382 | the tree loses and reorders no heading: its preorder is the input list |
| Tree.RootsFrom | detect_headings.py:375-378 | every root is one of the input headings |
| Tree.ForestIsOrdered | detect_headings.py:353-354 | every child is deeper than its parent, all the way down |
| Tree.Depth | detect_headings.py:372-373 | how many open headings stay after popping: never more than there are |
| Tree.DepthIs | detect_headings.py:372-373 | the number kept is fixed by the first open heading that is not shallower |
| Tree.DepthBelow | detect_headings.py:372-373 | every kept open heading is shallower than the new one |
| Tree.RightPathAttach | detect_headings.py:375-380 | after attaching at depth `d`, the open path is the first `d` open headings followed by the new one |
| Tree.AttachAt | detect_headings.py:376 | `stack[-1]["children"].append(node)` on the path of last children at depth `d`; RightPathAttach and ForestSnoc state its effect |
| Tree.ForestSnoc | detect_headings.py:365-380 | appending a heading to the list attaches it as the last child of the deepest open heading shallower than it, or as a new root when there is none |
| Tree.NearestBelow | detect_headings.py:353-354 | the last earlier heading with a lower level: it is lower, and every heading after it is not; absent exactly when no earlier heading is lower |
| Tree.NearestBelowLater | detect_headings.py:353-354 | past the first section, the nearest lower heading lies after that section, if anywhere |
| Tree.NearestBelowInside | detect_headings.py:353-354 | inside one section, the nearest lower heading is its root unless a later one qualifies |
| Tree.AttachPoint | detect_headings.py:353-354 | the tree's rule is the documented one: the attach point is the nearest earlier heading with a lower level, and the new heading is a root exactly when there is none |
| Tree.Unwind | detect_headings.py:371-373 | the pop loop keeps exactly the shallower prefix of an ascending stack |
| Tree.PushAscending | detect_headings.py:380 | after the push, the stack's levels still increase strictly |
| Tree.Place | detect_headings.py:365-380 | one turn: pop, attach under the top of the stack or as a root, push; the stack stays the open path of the tree, with strictly increasing levels |
| Tree.BuildTree | detect_headings.py:349-382 | the stack loop builds exactly the section forest; its preorder is the input and every child is deeper than its parent |

## Left out

- Reading the PDF (`pdfplumber.open`, `page.extract_words`), the `fontname` attribute, the command line (`main`), `print_tree` and JSON output: they are I/O. A document is given as one list of word records per page.
- Floating point: coordinates and sizes are exact reals. `round(x, 1)` rounds halves up, while Python's binary rounding can differ at exact halves. `abs(median - size) <= tol` is compared exactly.
- `re` and `html.escape` are not modelled as engines. The two heading patterns, `\s{2,}` splitting and escaping of the five characters are written out as functions.
- `build_headings_html.py` is not part of this model.
- `level_value`'s `float("inf")` fallback in `build_tree` and the `level is None` skip in `attach_section_html`: every record built by `extract_headings` has an integer level.
- Sections.AttachSectionHtml: requires every heading's page to be between 1 and the page count. For other pages the source would index `pdf.pages` out of range or from the end; records made by `extract_headings` always satisfy this.
- Tree.BuildTree: the source appends nodes in place to `children` lists that are shared between the stack and the tree. The model keeps the tree and the stack as values, and says where a node goes with `Tree.AttachAt` on the path of last children.
- Html.HtmlWriter: `flush_list` and `flush_table` are closures over three local lists. They are modelled as methods of a writer object that owns those lists.
- Classify.DigitRun: `\d` is narrowed to the ASCII digits `0`-`9`. On a `str` pattern Python's `\d` matches every Unicode decimal digit (category Nd), such as Arabic-Indic or fullwidth digits. A line of a later tier that starts with such digits, like "١. INTRODUCTION", is level 2 in the source but falls through to the tier number in the model. The Nd table depends on the Unicode version and is not modelled.
- Headings.LineHeading: `float(w["size"])` raising on an unreadable size is modelled as the error `SizeNotNumeric`. The documented behaviour says such words are dropped from line assembly; the model follows the code, which raises.
- FontProfile.AnalyzeFontSizes: the `RuntimeError` raised when no size is read is modelled as the error value `NoFontSizes`.
