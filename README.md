# MarkDown Designer: the verified rules of the web editor

MarkDown Designer is a browser Markdown editor with live preview and export to
PDF, HTML and Markdown (`Web/script.js`). Most of that file is DOM, storage and
library glue. This project models the self-contained rules inside it in Dafny
and proves what they promise:

- **The chunked PDF writer.** This is `generatePDFChunked`. It turns the A4
  content box into pixels and derives a page count with a ceiling. It then
  walks the pages, cutting the laid-out content into vertical slices. Each
  slice is rasterised at scale 2, retried at scale 1, and replaced by a text
  placeholder when both attempts fail. jsPDF is modelled as the class
  `PdfExport.PdfDocument`, which holds a sequence of pages and a current font
  size; the loop is a `while` loop over it.
- **The download name** (`getFilename`). The title is trimmed, with a fallback
  to `untitled-document`. It is then lower-cased, each run outside `[a-z0-9]`
  becomes one `-`, one `-` is stripped at each end, and the extension follows.
- **The metadata header** above the PDF and HTML content
  (`buildMetadataHeader`, `buildHtmlMetadataHeader`). Both are methods that
  push into `parts` and `metaInfo` like the source does. The model also covers
  the HTML page's `<meta name="author">` tag.
- **The front matter of the Markdown export** (`exportMarkdown`). It is a
  method that accumulates `frontmatter +=`. A reader for the front matter
  shows that the export round-trips.
- **The small pure helpers:**
  - the status-bar character and word counts (`updateCharCount`);
  - the saved-theme whitelist (`loadTheme`);
  - how stored include flags are read back (`loadMetadata`);
  - the pane resizer clamp (`onDrag`);
  - the list renderer for GitHub task lists (`renderer.list`,
    `renderer.listitem`).

The modules follow the program's parts:

| module | file | what it holds |
|---|---|---|
| `Wrappers` | `wrappers.dfy` | `Option` |
| `Text` | `text.dfy` | JavaScript `trim`, `\s`, `length` in UTF-16 units, `includes`, `join('')`, and `${n}` for naturals |
| `Filename` | `filename.dfy` | `getFilename` |
| `EditorStats` | `editor_stats.dfy` | `updateCharCount`, and an independent word-run count |
| `Settings` | `settings.dfy` | `loadTheme`, `saveMetadata`/`loadMetadata`, `onDrag` |
| `ListRenderer` | `list_renderer.dfy` | `renderer.listitem`, `renderer.list` |
| `Metadata` | `metadata.dfy` | the metadata record, the inclusion tests, both header builders, the meta author tag |
| `FrontMatter` | `front_matter.dfy` | the front-matter text and a reader for it |
| `Pagination` | `pagination.dfy` | the page geometry and slice arithmetic of `generatePDFChunked` |
| `Numeric` | `numeric.dfy` | `Math.min` and `Math.max` |
| `PdfExport` | `pdf_export.dfy` | the jsPDF document, the retry policy, the page loop |
| `Exports` | `exports.dfy` | `exportMarkdown`, `exportHTML`, `exportPDF` |

Parts of the browser become parameters of the model:

- `escapeHtml` and `formatDate` are given functions (`Metadata.Escaper`,
  `Metadata.DateFormatter`).
- `marked.parse` is `Exports.MarkdownRenderer`.
- `html2canvas` followed by `toDataURL` is an oracle,
  `PdfExport.Rasterizer`. It maps the window it is asked for to a canvas, or to
  `None` when anything inside that attempt's `try` block throws: `html2canvas`,
  `toDataURL` or `pdf.addImage`.
- The laid-out size of the PDF wrapper (`scrollWidth`, `scrollHeight`) is the
  `measure` parameter of `Exports.ExportPdf`.
- The clock of `loadMetadata` is its `today` parameter.
- The head's font links and style sheet in the HTML export are the
  `headAssets` parameter.

Behaviours of the code that a reader might not expect:

- The `<meta name="author">` tag (`Web/script.js:926`) tests the author
  **untrimmed** and writes it untrimmed. An author made only of spaces
  therefore gets a tag, but no author in the header or the front matter
  (`Metadata.BlankAuthorStillTagged`).
- `exportPDF` removes its off-screen wrapper only on success
  (`Web/script.js:800`). On an error once the wrapper is appended
  (`Web/script.js:757`), the `catch` and `finally` branches leave
  it in the page. DOM clean-up is not part of this model.
- `updateCharCount` is called only from the end of `renderPreview`
  (`Web/script.js:277`), which returns early for blank content
  (`Web/script.js:247-261`). Clearing the editor therefore leaves the last
  counts in the status bar. `EditorStats.UpdateCharCount` models the
  function itself, so its blank-text branch (0 words) is stated but the
  page never shows it from that call.

## Model

| member | source | states |
|---|---|---|
| `Text.Trim` | Web/script.js:187 | `trim()`: leading, then trailing ECMAScript whitespace removed; its shape is stated by `Text.TrimIsSlice` and `Text.TrimEmptyIff` |
| `Text.TrimIsSlice` | Web/script.js:187 | `trim()` returns a slice `s[i..j]` with only whitespace outside it and no whitespace at either end of it |
| `Text.TrimEmptyIff` | Web/script.js:285 | the trimmed text is empty exactly when every character is whitespace |
| `Text.Utf16Length` | Web/script.js:284 | `length` is between the number of code points and twice that, and equals it when every code point is in the Basic Multilingual Plane |
| `Text.NatToString` | Web/script.js:901 | `${n}` is a non-empty string of decimal digits without a leading zero |
| `Text.NatToStringRoundTrip` | Web/script.js:901 | reading the digits of `${n}` back gives `n` |
| `Text.NatToStringInjective` | Web/script.js:901 | different numbers print differently |
| `Filename.GetFilename` | Web/script.js:186-193 | the name ends with `.` and the extension, and what comes before is a slug: only `[a-z0-9-]`, no `--`, no `-` at either end |
| `Filename.BaseName` | Web/script.js:187 | `title.trim() || 'untitled-document'`; stated by `Filename.FallbackOnlyForBlankTitle` |
| `Filename.ToLower` | Web/script.js:189 | `toLowerCase` as far as `[a-z0-9]` is concerned; stated by `Filename.ToLowerKeepsSlugChars` |
| `Filename.ToLowerKeepsSlugChars` | Web/script.js:189 | lower-casing leaves a string of `[a-z0-9-]` unchanged |
| `Filename.Collapse` | Web/script.js:190 | `replace(/[^a-z0-9]+/g, '-')` read left to right; stated by `Filename.CollapseShape` and `Filename.CollapseRunToDash` |
| `Filename.CollapseShape` | Web/script.js:190 | after the separator replacement only `[a-z0-9-]` is left and no two `-` are adjacent |
| `Filename.CollapseSkipsRun` | Web/script.js:190 | a run outside `[a-z0-9]` writes one `-`, or nothing when it continues a run already written |
| `Filename.CollapseRunToDash` | Web/script.js:190 | between two letters or digits, a run of other characters of any length becomes exactly one `-` |
| `Filename.StripDashes` | Web/script.js:191 | `replace(/(^-|-$)/g, '')`; stated by `Filename.StripDashesShape` and `Filename.StripKeepsAlnums` |
| `Filename.StripDashesShape` | Web/script.js:191 | removing one `-` at each end of such a string leaves a slug |
| `Filename.Slugify` | Web/script.js:188-191 | `toLowerCase`, then each run outside `[a-z0-9]` to `-`, then one `-` off each end; its properties are the lemmas below |
| `Filename.SlugifyIsSlug` | Web/script.js:188-191 | whatever the title, the sanitised form is a slug |
| `Filename.CollapseKeepsSlugChars` | Web/script.js:190 | the separator replacement leaves a string of `[a-z0-9-]` without `--` unchanged |
| `Filename.SlugFixedPoint` | Web/script.js:188-191 | a slug sanitises to itself |
| `Filename.SlugifyIdempotent` | Web/script.js:188-191 | sanitising twice is sanitising once |
| `Filename.CollapseKeepsAlnums` | Web/script.js:190 | the separator replacement keeps every letter and digit, in order |
| `Filename.StripKeepsAlnums` | Web/script.js:191 | stripping the end dashes keeps every letter and digit |
| `Filename.SlugKeepsAlnums` | Web/script.js:188-191 | the slug holds exactly the ASCII letters and digits of the lower-cased title, in order |
| `Filename.SlugJoinsWords` | Web/script.js:188-191 | two lower-case words with any non-empty run of separators between them are saved as the words joined by one `-` |
| `Filename.DefaultNameIsSlug` | Web/script.js:187 | the fallback `untitled-document` is itself a slug |
| `Filename.FallbackOnlyForBlankTitle` | Web/script.js:187 | the fallback is used exactly when the trimmed title is empty; otherwise the trimmed title is sanitised |
| `Filename.ExampleMyReport` | Web/script.js:186-193 | `My Report!!` is saved as `my-report.pdf` |
| `Filename.ExampleOnlyPunctuation` | Web/script.js:186-193 | `!!!` is not blank, so there is no fallback and the name is `.pdf` |
| `Filename.ExampleBlankTitle` | Web/script.js:186-193 | a blank title gives `untitled-document.md` |
| `EditorStats.SplitWhitespace` | Web/script.js:286 | `split(/\s+/)` always yields at least one piece |
| `EditorStats.UpdateCharCount` | Web/script.js:283-288 | the character count is the UTF-16 length, between the number of code points and twice it; the word count is the number of maximal non-whitespace runs, and 0 exactly for a blank text |
| `EditorStats.RunCountTrim` | Web/script.js:285-286 | trimming changes the number of maximal non-whitespace runs by nothing |
| `EditorStats.WordCount` | Web/script.js:285-286 | the length of the trimmed text's split, or 0 for a blank text; equal to the run count by `EditorStats.WordCountIsRunCount` |
| `EditorStats.SplitCountsRuns` | Web/script.js:286 | on a trimmed non-empty text, the split has as many pieces as the text has non-whitespace runs |
| `EditorStats.SplitPiecesAreWords` | Web/script.js:286 | on a trimmed non-empty text, every piece of the split is non-empty and holds no whitespace |
| `EditorStats.WordCountIsRunCount` | Web/script.js:285-286 | the word count equals the number of maximal non-whitespace runs, counted independently by word starts |
| `EditorStats.WordCountZeroIff` | Web/script.js:285-286 | the word count is 0 exactly when the text is all whitespace |
| `Settings.LoadTheme` | Web/script.js:315-320 | the saved theme when it is on the whitelist, otherwise none; stated by `Settings.LoadThemeIff` |
| `Settings.LoadThemeIff` | Web/script.js:315-320 | a saved theme is applied exactly when it is one of `minimalist`, `cyberpunk`, `swiss`; otherwise the theme stays |
| `Settings.DecodeFlag` | Web/script.js:485-487 | `data.x !== false` on a stored value; stated by `Settings.DecodeFlagDefaults` |
| `Settings.DecodeFlagDefaults` | Web/script.js:485-487 | a stored boolean flag reads back as stored; anything else, a missing key included, reads as checked; only a stored `false` clears a box |
| `Settings.SaveMetadata` | Web/script.js:444-454 | the stored record of the three inputs and the three check boxes |
| `Settings.LoadMetadata` | Web/script.js:477-495 | the inputs and boxes read back from the stored record, with the defaults of `Settings.DecodeFlagDefaults` |
| `Settings.SaveLoadRoundTrip` | Web/script.js:477-495 | loading what `saveMetadata` stored gives back every input and check box |
| `Settings.MissingFlagsChecked` | Web/script.js:485-487 | a slot without the flags shows all three boxes checked |
| `Settings.OnDrag` | Web/script.js:405-418 | the pane widths for a cursor position while the divider is held, a container of width 0 included; stated by the `OnDrag` lemmas below |
| `Settings.OnDragBounds` | Web/script.js:405-418 | the panes change exactly while the divider is held, except at the left edge of a container of width 0; whenever they change, both stay within 25 % to 75 % and sum to 100 % |
| `Settings.OnDragZeroWidth` | Web/script.js:413-414 | in a container of width 0 the editor pane is 75 % right of its left edge and 25 % left of it |
| `Settings.OnDragFollowsCursor` | Web/script.js:413-414 | in a container of non-zero width, inside the range the editor pane is exactly the cursor's position in percent |
| `Settings.OnDragMonotone` | Web/script.js:413-414 | moving the cursor right never shrinks the editor pane |
| `Settings.Clamp` | Web/script.js:414 | `Math.max(25, Math.min(75, p))`; stated by `Settings.OnDragBounds` and `Settings.ClampIdempotent` |
| `Settings.ClampIdempotent` | Web/script.js:414 | clamping twice is clamping once |
| `ListRenderer.ListItem` | Web/script.js:223-229 | `renderer.listitem`: a plain `<li>` or a task item with a disabled check box; stated by `ListRenderer.ListItemShape` |
| `ListRenderer.List` | Web/script.js:231-236 | `renderer.list`: the list tag with its `start` attribute and task class around the body; stated by `ListRenderer.ListShape` |
| `ListRenderer.ListItemShape` | Web/script.js:223-229 | both item forms contain their text; a task item contains `task-list-item`; its checked and unchecked forms differ only by the word `checked` |
| `ListRenderer.ListShape` | Web/script.js:231-236 | the list opens with its tag; it has a `start` attribute exactly when it is ordered and does not start at 1; it has the `contains-task-list` class exactly when the body holds `task-list-item`; the body is inside; the `start` attribute holds the start number in decimal |
| `ListRenderer.TaskItemMarksList` | Web/script.js:234 | a list holding a task item anywhere in its body gets the `contains-task-list` class |
| `Metadata.Fields` | Web/script.js:516-527 | the included fields in push order; stated by `Metadata.FieldsIff` and `Metadata.FieldsOrdered` |
| `Metadata.FieldsIff` | Web/script.js:516-527 | the title is included exactly when its box is checked and the trimmed title is non-empty; the same for the author; the date when its box is checked and it is non-empty, untrimmed; there are no fields exactly when none passes |
| `Metadata.FieldsOrdered` | Web/script.js:516-527 | fields come title, then author, then date, each at most once |
| `Metadata.Wrap` | Web/script.js:530-535 | the template around the parts is never empty |
| `Metadata.PiecesPartitionFields` | Web/script.js:516-527 | every included field makes exactly one entry, in `parts` or in `metaInfo` |
| `Metadata.HeaderOf` | Web/script.js:529-538 | the header of a list of fields in one layout; stated by `Metadata.HeaderEmptyIff` and `Metadata.HeaderLayout` |
| `Metadata.HeaderEmptyIff` | Web/script.js:529-538 | the header is `''` exactly when no field passes its test, in both layouts |
| `Metadata.PiecesOfFields` | Web/script.js:516-527 | `parts` holds the escaped trimmed title alone, when included; `metaInfo` holds the author span before the date span, each exactly when included |
| `Metadata.HeaderLayout` | Web/script.js:529-536 | a non-empty header is the template around the title part and the meta line of the included author and date |
| `Metadata.BuildMetadataHeader` | Web/script.js:514-539 | the PDF header pushed step by step equals the header of the included fields in the PDF layout |
| `Metadata.BuildHtmlMetadataHeader` | Web/script.js:1095-1119 | the HTML header pushed step by step equals the header of the included fields in the HTML layout |
| `Metadata.BuildHeader` | Web/script.js:514-539 | the push sequence the two builders share yields the header of the included fields |
| `Metadata.HeadersAgree` | Web/script.js:1095-1119 | both builders are empty together, make the same number of title parts, and make the same author and date spans |
| `Metadata.MetaAuthorTag` | Web/script.js:926 | the author `<meta>` tag when the box is checked and the untrimmed author is non-empty, else nothing |
| `Metadata.MetaAuthorTagFollowsHeader` | Web/script.js:926 | whenever the header shows an author the page has the author tag; with the box cleared it has none |
| `Metadata.BlankAuthorStillTagged` | Web/script.js:926 | an author of one space gets an author tag though the header leaves it out |
| `FrontMatter.FrontMatterOf` | Web/script.js:1129-1145 | the front-matter text of a list of fields; stated by `FrontMatter.FrontMatterShape` and `FrontMatter.SplitFrontMatterRoundTrip` |
| `FrontMatter.FrontMatterShape` | Web/script.js:1129-1145 | front matter is present exactly when some field is included; it then opens with `---\n` and ends with `---\n\n` |
| `FrontMatter.ParseLineBody` | Web/script.js:1134-1142 | each key line reads back as its field |
| `FrontMatter.ParseFieldsRoundTrip` | Web/script.js:1133-1143 | the key lines of single-line fields read back as those fields, and reading stops at the closing fence |
| `FrontMatter.SplitFrontMatterRoundTrip` | Web/script.js:1129-1145 | front matter followed by any text reads back as its fields and that text, unchanged |
| `Exports.FrontMatterOfFields` | Web/script.js:1133-1143 | the front matter is the fence, the title, author and date lines of the included fields in that order, and the closing fence |
| `Exports.ExportMarkdown` | Web/script.js:1124-1162 | the downloaded file is named by `getFilename('md')` and is the front matter of the included fields followed by the editor text |
| `Exports.MarkdownExportRoundTrip` | Web/script.js:1129-1145 | for single-line inputs, the exported text splits back into the included fields and the unchanged editor text; without fields it is the editor text |
| `Exports.DocumentTitle` | Web/script.js:917 | the page title is the trimmed title, or `Untitled Document` when that is empty; it is never empty and never starts or ends with whitespace |
| `Exports.ExportHtml` | Web/script.js:913-1090 | the file is named by `getFilename('html')` and holds the page template filled with the author tag, the escaped title, the HTML header and the rendered Markdown |
| `Exports.HtmlDocument` | Web/script.js:920-1072 | the page template filled in; its shape is stated by `Exports.HtmlPageShape` |
| `Exports.HtmlPageShape` | Web/script.js:920-1072 | the page holds its `<title>` element, then the header, then ends with the rendered Markdown and the closing tags |
| `Exports.ExportPdf` | Web/script.js:554-809 | the PDF is named by `getFilename('pdf')` and holds the pages the chunked writer makes from the header followed by the rendered Markdown |
| `Exports.ExcludedAuthorNeverExported` | Web/script.js:926 | with the author box cleared, the front matter, the author tag, the HTML page and the PDF content do not depend on the author text |
| `Pagination.CeilBounds` | Web/script.js:834 | `Math.ceil(x)` is the least integer not below `x` |
| `Pagination.ChunkHeightIsAspect` | Web/script.js:845 | the slice height is the content width times 267/180, positive |
| `Pagination.NumPages` | Web/script.js:832-834 | `Math.ceil(totalHeight / chunkHeight)`; stated by `Pagination.NumPagesIsChunkCount` |
| `Pagination.HeightToRender` | Web/script.js:853-854 | `Math.min(chunkHeight, totalHeight - yOffset)`; stated by `Pagination.SliceHeights` |
| `Pagination.NumPagesIsChunkCount` | Web/script.js:832-834 | the page count is `ceil(totalHeight / chunkHeight)` |
| `Pagination.NumPagesPositiveIff` | Web/script.js:832-834 | the page count is never negative and is positive exactly when there is content |
| `Pagination.SliceHeights` | Web/script.js:853-854 | every page's slice height is in `(0, chunkHeight]`, and only the last page's slice can be shorter than a chunk |
| `Pagination.LastSliceEndsAtBottom` | Web/script.js:853-854 | the last slice ends exactly at the bottom of the content |
| `Pagination.SlicesAreContiguous` | Web/script.js:853-854 | each slice starts where the previous one ends: no gap and no overlap |
| `Pagination.RenderedHeightPrefix` | Web/script.js:848-854 | the first `k` slices cover the content down to the start of slice `k`, and all of them sum exactly to the content height |
| `Pagination.ExampleFourPages` | Web/script.js:816-854 | content 360 px wide and 1869 px tall gives 534 px slices and four pages, the last one 267 px |
| `PdfExport.DrawOnLast` | Web/script.js:877 | drawing adds the mark to the current (last) page and changes no other page |
| `PdfExport.PdfDocument.constructor` | Web/script.js:837-842 | a new document has one blank page in the default font size |
| `PdfExport.PdfDocument.AddPage` | Web/script.js:849-851 | `addPage` appends one blank page |
| `PdfExport.PdfDocument.AddImage` | Web/script.js:877 | `addImage` draws the picture on the current page |
| `PdfExport.PdfDocument.SetFontSize` | Web/script.js:900 | `setFontSize` changes the font size only |
| `PdfExport.PdfDocument.Text` | Web/script.js:901 | `text` draws a caption in the current font size on the current page |
| `PdfExport.PdfDocument.Save` | Web/script.js:907 | `save` hands over the pages under the given name |
| `PdfExport.RenderPage` | Web/script.js:853-902 | one loop pass draws exactly the mark the retry policy chooses for that page on the current page; the font size becomes 12 after a placeholder and is otherwise unchanged |
| `PdfExport.ExpectedPages` | Web/script.js:834-902 | one page per slice holding its mark, or one blank page; stated by `PdfExport.PageCount` and `PdfExport.OneMarkPerPage` |
| `PdfExport.GeneratePdfChunked` | Web/script.js:815-908 | the saved document holds one page per slice, page `p` holding exactly the mark for slice `p`; with no content it is one blank page |
| `PdfExport.PageCount` | Web/script.js:834-851 | non-empty content gives exactly `numPages` pages, at least one; empty content gives one blank page |
| `PdfExport.OneMarkPerPage` | Web/script.js:848-903 | every page gets exactly one image or one placeholder |
| `PdfExport.PictureInsideContentBox` | Web/script.js:874-877 | a picture is placed at the margins, as wide as the content box, at most as tall as it, keeping the canvas's aspect ratio unless cut off |
| `PdfExport.PageMark` | Web/script.js:856-902 | the mark page `p` gets under the retry policy; stated by `PdfExport.RetryPolicy` |
| `PdfExport.RetryPolicy` | Web/script.js:856-902 | quality 0.92 means scale 2 succeeded; 0.85 means scale 2 failed and scale 1 succeeded; the placeholder appears exactly when both fail |
| `PdfExport.PlaceholdersDistinct` | Web/script.js:901 | placeholders of different pages read differently |
| `PdfExport.AllFailuresGivePlaceholders` | Web/script.js:897-901 | when both attempts for page `p` fail, whatever happens on other pages, page `p` shows `[Content chunk p+1 could not be rendered]` at (15, 35) in 12 pt |

## Left out

- **DOM, styling and UI state.** This covers element lookups, the CSS
  template strings, theme buttons, the sidebar and mobile tabs, toasts, the
  loading overlay and event wiring. They are UI glue with no rule to state.
  The theme switch itself (`switchTheme`) is left out too; `loadTheme` is
  modelled as the choice of theme it makes.
- **Storage and JSON.** localStorage reads and writes and JSON parsing are
  I/O. A stored slot is modelled as already decoded (`Settings.Stored`), and
  an unparseable slot leaves the inputs unchanged.
- **Truthy stored texts.** `data.title || ''` turns any falsy stored value into `''`.
  The model stores texts as strings or nothing, so non-string values are not
  modelled.
- **The libraries** `marked`, `hljs`, `html2canvas`, jsPDF and the
  Blob/URL download machinery are foreign code. They become parameters or
  the `PdfDocument` class, as described above.
  - html2canvas options other than `scale`, `y`, `height` and `width` are not
    modelled.
  - `exportPDF` passes an `opt` object to `generatePDFChunked` but only its
    `filename` is read; the rest of `opt` is ignored by the code and by the
    model.
- **Timing and asynchrony.** The 500 ms font wait, `await` and debounce are
  left out; the page loop runs sequentially.
- **The DOM clean-up of `exportPDF`** and its error toast are left out.
- **Floating point.** Pixel arithmetic is over exact reals, so rounding at
  page boundaries is not modelled. `Math.ceil` is the exact ceiling.
- **Zero-width content.** `totalWidth` is a positive integer (`Pagination.Pos`).
  With a wrapper 0 pixels wide the source computes outside the reals. When the
  content has height, `scale` is Infinity and `numPages` is
  `Math.ceil(Infinity)`, so the page loop (`Web/script.js:848`) never ends and
  the export hangs. When the height is 0 as well, `numPages` is NaN, the loop
  body never runs, and one blank page is saved. Dafny's `real` has neither
  Infinity nor NaN.
- **`toLocaleString`.** Digit grouping in the status bar is
  locale-dependent; the model gives the two numbers.
- **`formatDate` and `escapeHtml`** are given functions; their browser
  behaviour is not modelled.
- **`toLowerCase`** is modelled for A–Z, U+212A and U+0130. These are the only
  characters whose lower case contains an ASCII letter or digit; every other
  character stays as it is, which gives the same slug.
- **YAML quoting.** The unescaped quotes in the front matter are modelled as
  written. The reader used for the round trip is part of the model, not of the
  source; it needs single-line inputs.
- **The HTML head's style sheet** is the `headAssets` parameter; its text is
  not reproduced.
