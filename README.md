# md2pptx core, modelled and verified in Dafny

md2pptx turns a Markdown document into a PowerPoint deck. This project models the parts that
decide what goes on the slides, and proves properties of them:

- **Segmentation.** The document is split on lines that are exactly `---`. Every piece that is
  not blank after stripping becomes one slide, in order (module `Segmenter`).
- **Title extraction.** The improved parser looks at the first three lines of a segment. The
  first line that is a `#` heading, a `**…**` line or a `**Слайд N:` line gives the title. The
  remainder is what follows that line (module `TitleExtraction`).
- **Cleaning.** `clean_title` removes a `Слайд N:` numbering prefix, asterisks at either end
  and extra whitespace. `clean_text` removes `(Промт для AI: …)` notes and extra whitespace
  (module `Cleaning`). Both are built on models of the Python string operations they use
  (module `Text`).
- **Block structuring.** Two parsers build the slides:
  - the original one, `md2pptx/parser.py` (module `Parser`);
  - the improved one, `md2pptx/parser_improved.py` (module `ImprovedParser`), which adds title
    cleaning, a title taken from the tree with its element removed, the automatic title
    `Слайд {i + 1}`, and image resolution.

  The Markdown-to-HTML conversion and the parsed tree are an abstract input. That input is an
  ordered sequence of elements, each with its tag and its text or attributes (module `Soup`).
  Image downloads and file look-ups are an oracle, `ImageResolver`. The slide records are in
  module `Models`.
- **Fetching.** Both versions of the fetcher are modelled:
  - the original `md2pptx/fetcher.py` (module `Fetcher`);
  - the corrected `md2pptx/fetcher_fixed.py` (module `FixedFetcher`).

  What they share is in module `Sources`:
  - how a source is classified as URL, gist id or local path;
  - how a gist id is found in a gist page URL;
  - the API request headers.

  The network and the file system are an abstract `Network`. The `GITHUB_TOKEN` value is a
  parameter.
- **Quality analysis.** This covers the per-slide issue rules, the counters, the quality score
  with its penalties, bonuses and clamp, and the grade bands of
  `analyze_presentation_quality` in `detailed_pptx_analyzer.py` (module `Analyzer`). Slides
  reach it as abstract `SlideInfo` values.

Loops with mutable state are modelled as Dafny methods with loop invariants. Each method is
proved equal to a specification function, and the properties are proved about that function
as lemmas. Module `Wrappers` holds `Option`, `Result` and the generic list scans these proofs
share.

## Model

| member | source | states |
|---|---|---|
| Text.LStrip | md2pptx/parser_improved.py:65 | `lstrip()` removes exactly the maximal run of leading whitespace: the result is a suffix, every removed character is whitespace, and the result does not start with whitespace |
| Text.RStrip | md2pptx/parser_improved.py:36 | `rstrip()` removes exactly the maximal run of trailing whitespace, and the result is a prefix |
| Text.Strip | md2pptx/parser_improved.py:54 | `strip()` leaves no whitespace at either end and never lengthens the text |
| Text.StripIgnoresOuterSpace | md2pptx/parser_improved.py:36 | one more whitespace character at either end does not change what `strip()` gives |
| Text.LStripChar | md2pptx/parser_improved.py:65 | removing a leading run of one character removes exactly the maximal run |
| Text.RStripChar | md2pptx/parser_improved.py:75 | `rstrip('*')` removes exactly the maximal trailing run of `*` |
| Text.StripChar | md2pptx/parser_improved.py:70 | `strip('*')` leaves no `*` at either end |
| Text.LastIndex | md2pptx/parser_improved.py:140 | `rfind` gives the position of the last occurrence, or nothing when the character is absent |
| Text.FirstIndex | md2pptx/parser_improved.py:44 | the first occurrence: the character is there and not before it |
| Text.CollapseSpaces | md2pptx/parser_improved.py:34 | `re.sub(r'\s+', ' ', …)` leaves one plain space per whitespace run, keeps the text empty exactly when it was, and keeps whether it starts with whitespace |
| Text.NormalizeSpaces | md2pptx/parser_improved.py:34-36 | collapsing then stripping gives whitespace normal form: trimmed and single-spaced |
| Text.NormalizeFixpoint | md2pptx/parser_improved.py:47-49 | text already in normal form is left unchanged, so normalizing twice is normalizing once |
| Text.NormalizedHasNoNewline | md2pptx/parser_improved.py:47-49 | text in whitespace normal form is one line |
| Text.Split | md2pptx/parser_improved.py:54 | `split('\n')` gives at least one piece, and no piece holds the separator |
| Text.JoinSplit | md2pptx/parser_improved.py:81 | joining the pieces of a split with the separator gives back the text |
| Text.SplitJoin | md2pptx/parser_improved.py:81 | splitting a join of separator-free pieces gives back the pieces |
| Text.NatToString | md2pptx/parser_improved.py:111 | `str(n)` is a non-empty string of decimal digits without a leading zero |
| Text.DecimalRoundTrip | md2pptx/parser_improved.py:111 | reading the digits of `str(n)` back gives `n` |
| Text.NatToStringInjective | md2pptx/parser_improved.py:111 | different numbers give different strings |
| Segmenter.SplitOnSeparator | md2pptx/parser_improved.py:18 | splitting on `^---$` in multiline mode always gives at least one piece |
| Segmenter.SplitJoinsBack | md2pptx/parser_improved.py:18 | the pieces joined with `---` give back the text, so splitting loses nothing |
| Segmenter.NoSeparatorSinglePiece | md2pptx/parser_improved.py:18 | a text without a line that is exactly `---` is a single piece |
| Segmenter.NoDashNoSeparator | md2pptx/parser_improved.py:18 | a text without a dash has no separator line |
| Segmenter.SplitSeparatedTexts | md2pptx/parser_improved.py:18 | the pieces of `a + "\n---\n" + b` are those of `a` and then those of `b`, the newlines around the separator kept at the inner ends |
| Segmenter.Segments | md2pptx/parser_improved.py:90 | every segment is non-empty and has no whitespace at either end |
| Segmenter.StrippedPiecesAreSegments | md2pptx/parser_improved.py:90 | the retained pieces are stripped and none is empty |
| Segmenter.NoSeparatorOneSegment | md2pptx/parser_improved.py:90 | without a separator line the whole stripped text is the only segment, and a blank text has none |
| Segmenter.SegmentsAfterLeadingSeparator | md2pptx/parser_improved.py:90 | a `---` line opening the document adds no segment |
| Segmenter.SegmentsBeforeTrailingSeparator | md2pptx/parser_improved.py:90 | a `---` line closing the document adds no segment |
| Segmenter.SegmentsOfSeparatedTexts | md2pptx/parser_improved.py:90 | a separator line between two texts puts their segments one after the other, in document order |
| Cleaning.LStripDigits | md2pptx/parser_improved.py:26 | `\d+` takes exactly the maximal run of leading digits |
| Cleaning.RemoveSlidePrefix | md2pptx/parser_improved.py:26-27 | the anchored substitution never lengthens a title and leaves one without the prefix's opening word unchanged |
| Cleaning.RemovesSlidePrefix | md2pptx/parser_improved.py:26-27 | a prefix `Слайд N: ` (or `**Слайд N: `) is removed, leaving exactly what follows it |
| Cleaning.RemovesSlidePrefixRuns | md2pptx/parser_improved.py:26-27 | a prefix `Слайд`, a whitespace run, a digit run, `:` and any whitespace run (after `**` or not) is removed for any run lengths, leaving exactly the non-blank text that follows |
| Cleaning.StripLeadingStars | md2pptx/parser_improved.py:30 | leading asterisks and the whitespace after them go; the title shortens exactly when it starts with `*` |
| Cleaning.StripTrailingStars | md2pptx/parser_improved.py:31 | the substitution never lengthens the title |
| Cleaning.TrailingStarsGo | md2pptx/parser_improved.py:31 | a trimmed title followed by `**` loses exactly the asterisks |
| Cleaning.StripTrailingStarsRuns | md2pptx/parser_improved.py:31 | a final run of asterisks goes together with all the whitespace before it, and a final newline stays after what is left |
| Cleaning.CleanTitle | md2pptx/parser_improved.py:20-36 | the empty title is returned unchanged; every result is in whitespace normal form |
| Cleaning.CleanTitleDropsSlidePrefix | md2pptx/parser_improved.py:26-27 | a numbering prefix in either form is dropped and the rest is cleaned as if it stood alone |
| Cleaning.CleanTitleFixpoint | md2pptx/parser_improved.py:20-36 | a title in normal form with no asterisk at either end and no numbering prefix is left unchanged |
| Cleaning.CleanTitleUnprefixed | md2pptx/parser_improved.py:30-36 | a title without prefix or leading asterisk cleans to its text without the trailing asterisks, when that text is already in normal form |
| Cleaning.CleanTitleBoldNumbered | md2pptx/parser_improved.py:20-36 | `**Слайд N: Title**` cleans to `Title` |
| Cleaning.CleanTitleExample | md2pptx/parser_improved.py:20-36 | `**Слайд 3: Wrap-up**` cleans to `Wrap-up` |
| Cleaning.RemovePrompts | md2pptx/parser_improved.py:44 | removing notes never lengthens the text |
| Cleaning.RemovesPrompt | md2pptx/parser_improved.py:44 | a note closed by the first `)` after its marker is removed up to and including that `)`, and the text before it, which does not hold the marker, is left untouched |
| Cleaning.RemovePromptsBefore | md2pptx/parser_improved.py:44 | text that does not hold the marker is kept in front of a marked text, since no match can start inside it |
| Cleaning.NoOpeningNoMarker | md2pptx/parser_improved.py:44 | text without `(` does not hold the marker |
| Cleaning.RemovePromptsPlain | md2pptx/parser_improved.py:44 | text without `(` passes through the removal unchanged |
| Cleaning.RemovePromptsUnclosed | md2pptx/parser_improved.py:44 | text without `)` is left as it is, an unclosed marker included |
| Cleaning.RemovePromptsUnmarked | md2pptx/parser_improved.py:44 | text without the marker is left as it is |
| Cleaning.CleanText | md2pptx/parser_improved.py:38-49 | the empty text is returned unchanged; every result is in whitespace normal form |
| Cleaning.CleanTextFixpoint | md2pptx/parser_improved.py:38-49 | clean text, in normal form and without a marker, is left as it is |
| Cleaning.CleanTextRemovesNote | md2pptx/parser_improved.py:38-49 | a closed note goes from text whose part before the note does not hold the marker, and the whitespace around it is collapsed with the rest |
| Cleaning.CleanTextExample | md2pptx/parser_improved.py:38-49 | `Text (Промт для AI: ignore this)  more` cleans to `Text more` |
| Soup.Find | md2pptx/parser_improved.py:103 | `find([...])` gives the first element whose tag is in the set, or nothing exactly when none is |
| Soup.FindFirst | md2pptx/parser_improved.py:103 | conversely, the first element with one of the tags is the one found |
| Soup.FindNone | md2pptx/parser_improved.py:103 | with no element of the set, nothing is found |
| Soup.Remove | md2pptx/parser_improved.py:107 | `decompose()` removes exactly that element and keeps the others in order |
| Soup.CollectAppend | md2pptx/parser_improved.py:117 | a `find_all` loop over two runs of elements is the loop over the first, then over the second |
| Soup.CollectMember | md2pptx/parser_improved.py:117 | an item is collected exactly when some element contributes it |
| Soup.CollectLength | md2pptx/parser_improved.py:117 | a loop that appends at most one item per element collects at most one item per element |
| TitleExtraction.Inspected | md2pptx/parser_improved.py:59 | `lines[:3]` inspects three lines, or all of them when there are fewer |
| TitleExtraction.ContentLines | md2pptx/parser_improved.py:54 | the stripped content has at least one line |
| TitleExtraction.FirstTitleLine | md2pptx/parser_improved.py:59-77 | the position of the first of the first three lines that gives a title; none of the inspected lines does when there is none |
| TitleExtraction.FirstTitleLineIs | md2pptx/parser_improved.py:59-77 | conversely, the first inspected line giving a title is the one found |
| TitleExtraction.FindTitleLine | md2pptx/parser_improved.py:59-77 | the loop with `break` finds that line and its raw title, with `remaining_lines` the lines after it; without one, it keeps the lines as they are |
| TitleExtraction.ScanTitle | md2pptx/parser_improved.py:59-84 | without a title the content is returned unchanged; a title is never empty and the remainder is stripped |
| TitleExtraction.ExtractTitle | md2pptx/parser_improved.py:79-84 | the title is found exactly when the scan finds one, and is then cleaned into normal form; the remainder is the scan's |
| TitleExtraction.ExtractTitleFromContent | md2pptx/parser_improved.py:51-84 | `extract_title_from_content` computes `ExtractTitle` |
| TitleExtraction.ExtractTitleKeepsWhatFollows | md2pptx/parser_improved.py:81 | on a title at line `i`, the remainder is lines `i+1..` joined and stripped, so the lines before the title line are dropped too |
| TitleExtraction.ExtractTitleReadsThreeLines | md2pptx/parser_improved.py:59 | two contents whose first three stripped lines agree get the same title, whatever follows |
| TitleExtraction.ExtractTitleFromFirstLine | md2pptx/parser_improved.py:79-82 | a first line giving a non-empty title supplies it cleaned, and the rest of the content is the remainder |
| TitleExtraction.ExtractTitleEmptyFirstLine | md2pptx/parser_improved.py:79-84 | a first line giving an empty title, such as `#` or `**`, gives no title and the content unchanged |
| TitleExtraction.ExtractTitleHeading | md2pptx/parser_improved.py:63-67 | `# Title` on the first line gives `Title` and the rest of the content |
| TitleExtraction.ExtractTitleBold | md2pptx/parser_improved.py:68-72 | `**Title**` on the first line gives `Title` and the rest of the content |
| TitleExtraction.ExtractTitleNumberedBold | md2pptx/parser_improved.py:68-80 | `**Слайд N: Title**` on the first line is taken by the bold rule and cleans to `Title` |
| TitleExtraction.ExtractTitleNumbered | md2pptx/parser_improved.py:73-80 | `**Слайд N: Title` with no closing `**` on the first line is taken by the third rule and gives `Title` and the rest of the content |
| Parser.Title | md2pptx/parser.py:20-21 | a title exists exactly when some element is `h1`, `h2` or `strong` |
| Parser.TitleIsFirstHeading | md2pptx/parser.py:20-21 | the title is the uncleaned text of the first such element, whatever `h3` comes before it |
| Parser.H3DoesNotTitle | md2pptx/parser.py:20 | a tree whose only headings are `h3` gives no title |
| Parser.BulletsAre | md2pptx/parser.py:23 | every list item gives a bullet, an empty one included |
| Parser.AppendParagraphs | md2pptx/parser.py:26-29 | one paragraph block per non-empty paragraph text is appended, in order |
| Parser.AppendImages | md2pptx/parser.py:30-31 | the image loop succeeds exactly when every image has a `src`, and then appends one block per image, `src` as it is and `alt` defaulting to `""` |
| Parser.ParseSlide | md2pptx/parser.py:17-32 | the loop body computes the slide of the segment, or the `KeyError` of an image without `src` |
| Parser.ParseMarkdown | md2pptx/parser.py:14-33 | `parse_markdown` computes `Parse` |
| Parser.ParseSlides | md2pptx/parser.py:15-32 | the parse succeeds exactly when every segment does, giving one slide per segment in order; otherwise it fails with the error of the first failing segment |
| Parser.SingleSegment | md2pptx/parser.py:15 | a trimmed text without a dash is a single segment |
| Parser.ParseSimple | tests/test_parser.py:9-12 | `# Title\n\nContent` is one segment and parses to one slide titled `Title` with one paragraph |
| ImprovedParser.LastComponent | md2pptx/parser_improved.py:140 | the name is the last component that is neither empty nor `.`, and it is empty exactly when every component is one of those |
| ImprovedParser.PathName | md2pptx/parser_improved.py:140 | a path's name contains no `/` and is never `.` |
| ImprovedParser.PathNameEmpty | md2pptx/parser_improved.py:140 | a path's name is empty exactly when every component between its `/` separators is empty or `.` |
| ImprovedParser.PathNameOfChild | md2pptx/parser_improved.py:140 | the name of `d/n` is `n` for a component `n` without `/` that is neither empty nor `.` |
| ImprovedParser.PathNameOfName | md2pptx/parser_improved.py:140 | a single component that is neither empty nor `.` is its own name |
| ImprovedParser.Suffix | md2pptx/parser_improved.py:140 | the suffix starts at the name's last `.` and reaches its end; it is empty exactly when there is no dot, or the dot opens or ends the name |
| ImprovedParser.TempSuffix | md2pptx/parser_improved.py:140 | the temporary file's suffix starts with `.` and is the suffix of the URL's name whenever that is not empty |
| ImprovedParser.TempSuffixFallback | md2pptx/parser_improved.py:140 | an empty suffix on the name gives `.img` |
| ImprovedParser.TempSuffixOfFile | md2pptx/parser_improved.py:140 | a source whose last component is `base.ext` downloads to a file ending in `.ext` |
| ImprovedParser.TempSuffixOfPlainName | md2pptx/parser_improved.py:140 | a source whose last component holds no `.` downloads to a file ending in `.img` |
| ImprovedParser.ResolveImage | md2pptx/parser_improved.py:133-152 | a remote image yields a block exactly when its download succeeds, with `src` the downloaded file; any other yields one exactly when its path exists, `src` unchanged; `alt` defaults to `""` |
| ImprovedParser.BulletBlock | md2pptx/parser_improved.py:122-123 | there is at most one bullet block, present exactly when there are bullets, with empty text and exactly those bullets |
| ImprovedParser.FallbackTitle | md2pptx/parser_improved.py:110-111 | the automatic title is `Слайд ` followed by the 1-based slide number, and is in whitespace normal form |
| ImprovedParser.SlideTitle | md2pptx/parser_improved.py:102-111 | the chosen title is never empty |
| ImprovedParser.BuildSlide | md2pptx/parser_improved.py:95-155 | every slide has a non-empty title and no notes |
| ImprovedParser.ChooseTitle | md2pptx/parser_improved.py:101-111 | the title branches compute `SlideTitle` |
| ImprovedParser.CollectBullets | md2pptx/parser_improved.py:116-120 | the list-item loop computes the bullets |
| ImprovedParser.AppendParagraphs | md2pptx/parser_improved.py:126-129 | the paragraph loop appends the paragraph blocks |
| ImprovedParser.AppendImages | md2pptx/parser_improved.py:132-152 | the image loop with `continue` appends the image blocks |
| ImprovedParser.CollectBlocks | md2pptx/parser_improved.py:113-152 | the three loops build the blocks in their order |
| ImprovedParser.ParseSlide | md2pptx/parser_improved.py:94-156 | the slide loop's body builds the slide of segment `i` |
| ImprovedParser.ParseMarkdown | md2pptx/parser_improved.py:86-158 | `parse_markdown` computes `Parse` |
| ImprovedParser.ParseSlides | md2pptx/parser_improved.py:93-156 | one slide per segment; the slide at position `k` is built from segment `k` with slide number `k + 1` |
| ImprovedParser.BulletsAre | md2pptx/parser_improved.py:116-120 | the bullets are exactly the cleaned texts of the list items that do not clean to nothing |
| ImprovedParser.BulletsAreClean | md2pptx/parser_improved.py:118-120 | every bullet is non-empty and in whitespace normal form |
| ImprovedParser.ParagraphBlocksAre | md2pptx/parser_improved.py:126-129 | the paragraph blocks are exactly those of the paragraphs whose cleaned text is not empty |
| ImprovedParser.ParagraphBlocksAreClean | md2pptx/parser_improved.py:126-129 | every paragraph block is a well-formed paragraph with text in normal form |
| ImprovedParser.ImageBlocksAre | md2pptx/parser_improved.py:132-152 | the image blocks are exactly what the images resolve to; an image that fails is skipped |
| ImprovedParser.ImageBlocksAreImages | md2pptx/parser_improved.py:132-152 | every image block is an image, and there are no more of them than elements |
| ImprovedParser.BlocksLayout | md2pptx/parser_improved.py:113-152 | every block is well-formed; the first is the bullet block holding all the bullets exactly when there are bullets, and no other block is one; then come exactly the paragraph blocks and, last, exactly the image blocks |
| ImprovedParser.FallbackTitlesDistinct | md2pptx/parser_improved.py:111 | different slide positions get different automatic titles |
| ImprovedParser.TitleFromFirstLines | md2pptx/parser_improved.py:95-102 | a non-empty title from the first lines of a segment is its slide's title, and the blocks come from the whole tree of the rest of the segment |
| ImprovedParser.SlideFromHeading | md2pptx/parser_improved.py:63-67 | a segment opening with `# Title` gives the slide titled `Title` whose blocks come from the lines after the heading |
| ImprovedParser.TitleFromTree | md2pptx/parser_improved.py:102-107 | otherwise the first `h1`/`h2`/`h3`/`strong` element gives the cleaned title and is removed from the tree |
| ImprovedParser.TitleFallback | md2pptx/parser_improved.py:110-111 | with neither, the slide gets the automatic title and the tree is left whole |
| ImprovedParser.TitleFromEmptyHeading | md2pptx/parser_improved.py:103-111 | a heading element that cleans to nothing is still removed, and the automatic title is used |
| ImprovedParser.TitleShape | md2pptx/parser_improved.py:102-111 | for an extracted title that is absent or already in whitespace normal form, the chosen title is in whitespace normal form, the automatic title included |
| ImprovedParser.SlideTitleShape | md2pptx/parser_improved.py:95-111 | every slide title is in whitespace normal form |
| Sources.Classify | md2pptx/fetcher_fixed.py:21-29 | a source is a URL exactly when it has the `http://`/`https://` prefix, a gist id exactly when it is not a URL and matches `GIST_RE`, and a local path exactly otherwise |
| Sources.GistIdIsNotUrl | md2pptx/fetcher_fixed.py:18 | no gist id starts like a URL, so the order of the first two tests does not matter |
| Sources.PathsAreLocal | md2pptx/fetcher_fixed.py:27-29 | a path starting with `/` or `.` is read from the file system |
| Sources.GistUrlIdAt | md2pptx/fetcher_fixed.py:19 | a match of `GIST_URL_RE` captures twenty or more hexadecimal digits |
| Sources.FindGistUrlId | md2pptx/fetcher_fixed.py:35-37 | `search(url).group(1)` gives twenty or more hexadecimal digits |
| Sources.GistUrlRoundTrip | md2pptx/fetcher_fixed.py:19 | a gist page URL `https://gist.github.com/<user>/<id>` gives back its id |
| Sources.GistUrlAfterText | md2pptx/fetcher_fixed.py:35-37 | the search finds the id of a gist page link after any text that does not hold the prefix itself |
| Sources.NoPrefixNoGistUrl | md2pptx/fetcher_fixed.py:35 | a URL without the gist page prefix is not a gist URL |
| Sources.ApiUrl | md2pptx/fetcher_fixed.py:59 | the API URL is the gists endpoint followed by the id |
| Sources.GistHeaders | md2pptx/fetcher_fixed.py:51-54 | `Accept` is always set; `Authorization: token <T>` is set exactly when the token is set and not empty; there are no other headers |
| Sources.BuildHeaders | md2pptx/fetcher_fixed.py:51-54 | filling the dictionary key by key gives `GistHeaders` |
| Sources.Names | md2pptx/fetcher_fixed.py:84 | the available names are all the keys of the listing, in order |
| Fetcher.UrlContent | md2pptx/fetcher.py:24-27 | a URL is fetched as it is, and its failure propagates |
| Fetcher.Scan | md2pptx/fetcher.py:38-42 | the scan returns a listed file whose `filename` ends with `.md`, or fails with the `KeyError` of a missing name or with "No markdown file found in gist" |
| Fetcher.GistContent | md2pptx/fetcher.py:29-42 | request and key errors propagate unchanged: none becomes one of the corrected fetcher's errors |
| Fetcher.FetchesUrlAsPage | md2pptx/fetcher.py:15-17 | a source with an `http://` or `https://` prefix is fetched as a page with a plain GET, its failure propagated |
| Fetcher.FetchesGistId | md2pptx/fetcher.py:18-19 | a gist id goes to the gist API with the optional token |
| Fetcher.FetchesPathFromFile | md2pptx/fetcher.py:20-22 | a source with neither prefix that is not a gist id is read from the file system |
| Fetcher.FetchFromGist | md2pptx/fetcher.py:29-42 | the request followed by the scan with early return computes `GistContent` |
| Fetcher.FetchFromUrl | md2pptx/fetcher.py:24-27 | computes `UrlContent` |
| Fetcher.FetchMarkdown | md2pptx/fetcher.py:15-22 | computes `Fetch` |
| Fetcher.ScansToFirstMarkdown | md2pptx/fetcher.py:38-41 | the first file named `*.md` is fetched, provided every file before it has a name |
| Fetcher.ScanFindsNothing | md2pptx/fetcher.py:38-42 | the plain "no markdown file" error comes exactly when every file has a name and none ends with `.md` |
| Fetcher.GistPageFetchedAsPage | md2pptx/fetcher.py:16-17 | a gist page URL is fetched as a page; the id it carries is not used |
| Fetcher.SameChoiceOnPlainListings | md2pptx/fetcher.py:38-41 | on a listing whose names are its keys and where only `.md` files are typed as Markdown, both fetchers choose the same file |
| Fetcher.FetchLocalSample | tests/test_fetcher.py:9-13 | a local path is read from its file, and `Title` is in `# Title` |
| FixedFetcher.Selection | md2pptx/fetcher_fixed.py:69-88 | the chosen file is a listed file; failure reports every available name |
| FixedFetcher.SelectGistFile | md2pptx/fetcher_fixed.py:69-88 | the two loops and the pick of the first collected file compute `Selection` |
| FixedFetcher.SelectsFirstMarkdown | md2pptx/fetcher_fixed.py:69-88 | the first file named `*.md` or typed `text/markdown` is chosen, whatever text files come before it |
| FixedFetcher.FallsBackToText | md2pptx/fetcher_fixed.py:75-81 | without a Markdown file, the first file whose type starts with `text/` is chosen |
| FixedFetcher.SelectionFails | md2pptx/fetcher_fixed.py:83-85 | the selection fails exactly when no file is a Markdown or a text file |
| FixedFetcher.GistContent | md2pptx/fetcher_fixed.py:46-107 | every failure is reported against the gist: a failed request as "Failed to fetch gist", a missing key as "Invalid gist response format", or the selection's error |
| FixedFetcher.UrlContentPlain | md2pptx/fetcher_fixed.py:31-44 | a URL that does not hold the gist page prefix anywhere is fetched as it is, and its failure propagates |
| FixedFetcher.FetchesPlainUrl | md2pptx/fetcher_fixed.py:21-24 | a source with an `http://` or `https://` prefix and no gist page prefix inside is fetched as a page with a plain GET |
| FixedFetcher.FetchesPathFromFile | md2pptx/fetcher_fixed.py:27-29 | a source with neither prefix that is not a gist id is read from the file system |
| FixedFetcher.FetchFromGist | md2pptx/fetcher_fixed.py:46-107 | computes `GistContent` |
| FixedFetcher.FetchFromUrl | md2pptx/fetcher_fixed.py:31-44 | computes `UrlContent` |
| FixedFetcher.FetchMarkdown | md2pptx/fetcher_fixed.py:21-29 | computes `Fetch` |
| FixedFetcher.GistPageFetchesGist | md2pptx/fetcher_fixed.py:35-39 | a gist page URL fetches the gist it names through the API |
| FixedFetcher.GistIdFetchesGist | md2pptx/fetcher_fixed.py:25-26 | a gist id is fetched through the API, whatever its length beyond twenty digits |
| Analyzer.CountShape | detailed_pptx_analyzer.py:64-79 | one shape adds its contribution to the counters |
| Analyzer.CountShapes | detailed_pptx_analyzer.py:58-79 | the shape loop computes `ShapeTally` |
| Analyzer.TallyBounds | detailed_pptx_analyzer.py:58-79 | each shape is counted at most once, and text length is counted only with a text shape |
| Analyzer.IssuesOfMembers | detailed_pptx_analyzer.py:44-102 | each issue is reported exactly when its check fails; a blank title is reported only when a title exists |
| Analyzer.IssuesInOrder | detailed_pptx_analyzer.py:44-102 | the checks, appending one after the other, build the slide's issue list |
| Analyzer.AtMostTwoIssues | detailed_pptx_analyzer.py:44-102 | a slide has at most two issues |
| Analyzer.TitleIssue | detailed_pptx_analyzer.py:44-55 | a missing title and a blank title are each reported exactly in their case |
| Analyzer.EmptySlideIssue | detailed_pptx_analyzer.py:91-93 | a slide is reported empty exactly when it has no text shape and no image shape |
| Analyzer.TooMuchTextIssue | detailed_pptx_analyzer.py:95-97 | a slide is reported for too much text exactly when its text shapes hold more than 1000 characters in total |
| Analyzer.MetaTitleIssue | detailed_pptx_analyzer.py:100-102 | a slide is reported for meta text exactly when its title text holds `**Слайд` |
| Analyzer.InspectSlide | detailed_pptx_analyzer.py:43-102 | the loop body computes what slide `n` adds to the counters and the issues |
| Analyzer.AnalyzeSlides | detailed_pptx_analyzer.py:39-102 | the slide loop computes `Summary` |
| Analyzer.SummaryBounds | detailed_pptx_analyzer.py:39-85 | the titled and with-content counters never exceed the slide count; there are at most two issues per slide |
| Analyzer.IssuesNameSlides | detailed_pptx_analyzer.py:39-102 | every issue names a slide number between 1 and the slide count |
| Analyzer.Clamp | detailed_pptx_analyzer.py:165 | the result is in [0, 100], and a value already there is kept |
| Analyzer.QualityScore | detailed_pptx_analyzer.py:133-165 | the step-by-step penalties, bonuses and clamp compute the clamped raw score |
| Analyzer.ScoreRange | detailed_pptx_analyzer.py:133-165 | the raw score lies in [10, 110], so the clamped score lies in [10, 100] |
| Analyzer.PerfectScore | detailed_pptx_analyzer.py:133-165 | the score is 100 exactly when no penalty applies, for a non-empty presentation whose title count does not exceed its slide count |
| Analyzer.AnalysisPerfect | detailed_pptx_analyzer.py:133-165 | on a real analysis, the score is 100 exactly when no penalty applies |
| Analyzer.GradeOf | detailed_pptx_analyzer.py:169-176 | exactly one band: excellent from 80, good from 60, satisfactory from 40, poor below |
| Analyzer.GradeMonotone | detailed_pptx_analyzer.py:169-176 | a higher score never gets a lower grade |
| Analyzer.AnalyzePresentation | detailed_pptx_analyzer.py:13-205 | the analysis fails exactly on a presentation with no slides; otherwise its statistics are the slide loop's |

## Left out

- Whitespace is six of the ten ASCII characters Python treats as whitespace: space, `\t`, `\n`, `\r`, `\x0b` and `\x0c`. The separators `\x1c` to `\x1f` are also whitespace to Python's `\s` and `str.strip()`, but not to the model, so on text holding them the model's stripping, space collapsing and title rules differ from Python's. `\d` is the ASCII digits. Python's `\s`, `str.strip()` and `\d` also take their Unicode counterparts. A Unicode table is outside the model.
- The Markdown library and BeautifulSoup are foreign code. Their output is the parameter `render`, a flat sequence of elements in document order, each holding its `get_text(strip=True)` text.
  - Nesting is not modelled. For example, removing a `strong` inside a paragraph would shorten that paragraph's text in the source but does not here.
  - `decompose()` is modelled as removing the one element.
- Downloads, temporary files and `Path.exists` in image handling are the oracle `ImageResolver`. The name of the temporary file is whatever the download returns, and the file's lifecycle is not modelled.
- Cleaning.RemoveSlidePrefix: its own contract states only that a title never grows and that one without the opening word is unchanged. The value removed for a match is stated by `Cleaning.RemovesSlidePrefixRuns`.
- Cleaning.StripTrailingStars: its own contract states only that a title never grows. The value for a title ending in asterisks is stated by `Cleaning.StripTrailingStarsRuns`.
- `ImprovedParser.Suffix`: follows `PurePosixPath` rules only. Windows path separators are not modelled.
- The network, `os.getenv`, `dotenv` and `read_text` are the abstract `Network`, with the token as a parameter.
  - JSON decoding is folded into `GistReply`.
  - A body that is not JSON counts as a failed request.
  - A `type` field that is JSON `null`, which makes `.startswith` raise `AttributeError` at md2pptx/fetcher_fixed.py:78, is not modelled. Types are a present string or absent.
- Console output is not modelled:
  - every `print`;
  - the warnings for skipped images;
  - the percentages and averages of the statistics printout;
  - the recommendations at detailed_pptx_analyzer.py:180-200.
- Loading the presentation with python-pptx and the file-existence check at detailed_pptx_analyzer.py:16-18 are outside the model. Each slide arrives as a `SlideInfo` with its title placeholder and its shapes already classified as text-holding, picture or other. In python-pptx the title placeholder is also one of `slide.shapes`, so its text counts in the slide's text shapes and text length. `SlideInfo` leaves it to whoever builds it to include the placeholder in the shapes, and no lemma relies on that.
- The float thresholds `count * 0.8`, `count * 0.9` and `count * 0.3` are stated as the exact integer comparisons `5 * titled < 4 * count`, `10 * withContent < 9 * count` and `10 * issues > 3 * count`.
- The issue messages are represented by their kind and slide number, not by their text.
- `clean_text` is not idempotent, so no idempotence property is claimed for `Cleaning.CleanText`. A note whose marker holds a double space only becomes matchable after the first pass collapses it. What is proved instead is the whitespace normal form and the fixpoint on already clean text.
- `md2pptx/builder.py`, `md2pptx/cli.py`, `md2pptx/__init__.py`, `md2pptx/diagrams.py`, `analyze_pptx.py`, `compare_presentations`, `debug_gist.py` and the `test_*` functions inside the parser and fetcher modules are outside the model. They are deck writing, command-line wiring, re-exports, a stub, printouts of presentation files and live network diagnostics.
