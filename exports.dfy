/** The three exports: Markdown with front matter (`exportMarkdown`), a
    standalone HTML page (`exportHTML`) and the chunked PDF (`exportPDF`).
    The browser download of a Blob is modelled as the file it would write. */
module Exports {
  import opened Text
  import opened Filename
  import opened Metadata
  import opened FrontMatter
  import opened Pagination
  import opened PdfExport

  /** A downloaded file: its name and its text. */
  datatype Download = Download(filename: string, content: string)

  /** Markdown rendering (`marked.parse`) is a library; the model takes it as
      a given function. */
  type MarkdownRenderer = string -> string

  lemma {:induction false} LinesAppend(a: seq<Field>, b: seq<Field>)
    ensures Lines(a + b) == Lines(a) + Lines(b)
  {
    if a == [] {
      assert a + b == b;
    } else {
      assert (a + b)[1..] == a[1..] + b;
      LinesAppend(a[1..], b);
    }
  }

  /** The front-matter line of each field, or nothing when it is left out. */
  function TitleLine(m: Metadata): string {
    if TitleIncluded(m) then Line(TitleField(Trim(m.title))) else ""
  }

  function AuthorLine(m: Metadata): string {
    if AuthorIncluded(m) then Line(AuthorField(Trim(m.author))) else ""
  }

  function DateLine(m: Metadata): string {
    if DateIncluded(m) then Line(DateField(m.date)) else ""
  }

  lemma {:induction false} LinesOfSlots(t: seq<Field>, a: seq<Field>, d: seq<Field>)
    requires |t| <= 1 && |a| <= 1 && |d| <= 1
    ensures Lines(t + a + d) ==
      (if t == [] then "" else Line(t[0])) + (if a == [] then "" else Line(a[0])) +
      (if d == [] then "" else Line(d[0]))
  {
    LinesAppend(t + a, d);
    LinesAppend(t, a);
    SingleFieldLines(t);
    SingleFieldLines(a);
    SingleFieldLines(d);
  }

  lemma {:induction false} SingleFieldLines(fs: seq<Field>)
    requires |fs| <= 1
    ensures Lines(fs) == if fs == [] then "" else Line(fs[0])
  {
    if fs != [] {
      assert fs[1..] == [];
      assert Line(fs[0]) + "" == Line(fs[0]);
    }
  }

  /** The front matter of a record: the fence, the title, author and date
      lines of the included fields, and the closing fence. */
  lemma {:induction false} FrontMatterOfFields(m: Metadata)
    ensures Fields(m) != [] ==>
      FrontMatterOf(Fields(m)) == Fence + (TitleLine(m) + AuthorLine(m) + DateLine(m)) + Closing
  {
    var t := if TitleIncluded(m) then [TitleField(Trim(m.title))] else [];
    var a := if AuthorIncluded(m) then [AuthorField(Trim(m.author))] else [];
    var d := if DateIncluded(m) then [DateField(m.date)] else [];
    LinesOfSlots(t, a, d);
  }

  /** `exportMarkdown`: the front matter of the included fields, when there
      is one, then the editor text unchanged. */
  method ExportMarkdown(m: Metadata, content: string) returns (file: Download)
    ensures file == Download(GetFilename(m.title, "md"), FrontMatterOf(Fields(m)) + content)
  {
    var text := content;
    FieldsIff(m);
    if TitleIncluded(m) || AuthorIncluded(m) || DateIncluded(m) {
      var frontmatter := Fence;
      if TitleIncluded(m) {
        frontmatter := frontmatter + Line(TitleField(Trim(m.title)));
      }
      assert frontmatter == Fence + TitleLine(m);
      if AuthorIncluded(m) {
        frontmatter := frontmatter + Line(AuthorField(Trim(m.author)));
      }
      assert frontmatter == Fence + TitleLine(m) + AuthorLine(m);
      if DateIncluded(m) {
        frontmatter := frontmatter + Line(DateField(m.date));
      }
      assert frontmatter == Fence + TitleLine(m) + AuthorLine(m) + DateLine(m);
      AppendAssoc(Fence, TitleLine(m), AuthorLine(m));
      AppendAssoc(Fence, TitleLine(m) + AuthorLine(m), DateLine(m));
      frontmatter := frontmatter + Closing;
      FrontMatterOfFields(m);
      assert frontmatter == FrontMatterOf(Fields(m));
      text := frontmatter + text;
    } else {
      assert Fields(m) == [];
      assert text == FrontMatterOf(Fields(m)) + content;
    }
    file := Download(GetFilename(m.title, "md"), text);
  }

  /** The fields of a record fit on one line when its inputs do. */
  lemma {:induction false} FieldsSingleLine(m: Metadata)
    requires '\n' !in m.title && '\n' !in m.author && '\n' !in m.date
    ensures forall f | f in Fields(m) :: SingleLine(f)
  {
    var i, j := TrimIsSlice(m.title);
    assert forall k | i <= k < j :: m.title[k] in m.title;
    var i', j' := TrimIsSlice(m.author);
    assert forall k | i' <= k < j' :: m.author[k] in m.author;
  }

  /** The exported Markdown reads back as the included fields and the
      editor text; with no field included it is the editor text itself. */
  lemma {:induction false} MarkdownExportRoundTrip(m: Metadata, content: string)
    requires '\n' !in m.title && '\n' !in m.author && '\n' !in m.date
    ensures Fields(m) != [] ==> SplitFrontMatter(FrontMatterOf(Fields(m)) + content) == (Fields(m), content)
    ensures Fields(m) == [] ==> FrontMatterOf(Fields(m)) + content == content
  {
    if Fields(m) != [] {
      FieldsSingleLine(m);
      SplitFrontMatterRoundTrip(Fields(m), content);
    }
  }

  /** The title of the HTML page: the trimmed title, or a fallback. */
  function DocumentTitle(m: Metadata): (t: string)
    ensures Trim(m.title) != "" ==> t == Trim(m.title)
    ensures Trim(m.title) == "" ==> t == "Untitled Document"
    ensures t != [] && !IsWhitespace(t[0]) && !IsWhitespace(t[|t| - 1])
  {
    TrimEdges(m.title);
    if Trim(m.title) != "" then Trim(m.title) else "Untitled Document"
  }

  /** The page `exportHTML` writes, around the head's font links and style
      sheet `headAssets` (kept as a parameter). */
  function HtmlDocument(m: Metadata, htmlContent: string, headAssets: string, esc: Escaper, fmt: DateFormatter): string {
    HtmlPage(MetaAuthorTag(m, esc), esc(DocumentTitle(m)), headAssets, HeaderOf(HtmlHeader, Fields(m), esc, fmt), htmlContent)
  }

  /** The template of the page, with its author tag, escaped title, head
      assets, metadata header and rendered Markdown filled in. */
  function HtmlPage(authorTag: string, title: string, headAssets: string, header: string, htmlContent: string): string {
    Concat(PageParts(authorTag, title, headAssets, header, htmlContent))
  }

  function PageParts(authorTag: string, title: string, headAssets: string, header: string, htmlContent: string): seq<string> {
    [HeadStart(), authorTag, "\n    ", TitleElement(title), "\n    ", headAssets,
     "\n<body>\n    ", header, "\n    ", htmlContent, PageEnd()]
  }

  function HeadStart(): string {
    "<!DOCTYPE html>\n<html lang=\"en\">\n<head>\n    <meta charset=\"UTF-8\">\n" +
    "    <meta name=\"viewport\" content=\"width=device-width, initial-scale=1.0\">\n" +
    "    <meta name=\"generator\" content=\"MarkDown Designer\">\n    "
  }

  function TitleElement(title: string): string {
    "<title>" + title + "</title>"
  }

  function PageEnd(): string {
    "\n</body>\n</html>"
  }

  /** `exportHTML`. */
  method ExportHtml(m: Metadata, markdown: string, render: MarkdownRenderer, headAssets: string,
                    esc: Escaper, fmt: DateFormatter) returns (file: Download)
    ensures file == Download(GetFilename(m.title, "html"), HtmlDocument(m, render(markdown), headAssets, esc, fmt))
  {
    var htmlContent := render(markdown);
    var title := DocumentTitle(m);
    var header := BuildHtmlMetadataHeader(m, esc, fmt);
    var fullHtml := HtmlPage(MetaAuthorTag(m, esc), esc(title), headAssets, header, htmlContent);
    file := Download(GetFilename(m.title, "html"), fullHtml);
  }

  /** The eleven template pieces of the HTML page, joined: the join contains
      the fourth piece (the title element) and the eighth (the header), and
      ends with the last two (the rendered Markdown and the closing tags). */
  lemma {:induction false} PageTemplateParts(p0: string, p1: string, p2: string, p3: string, p4: string, p5: string,
                                       p6: string, p7: string, p8: string, p9: string, p10: string)
    ensures var page := Concat([p0, p1, p2, p3, p4, p5, p6, p7, p8, p9, p10]);
      && Contains(page, p3) && Contains(page, p7)
      && page == Concat([p0, p1, p2, p3, p4, p5, p6, p7, p8]) + p9 + p10
  {
    var parts := [p0, p1, p2, p3, p4, p5, p6, p7, p8, p9, p10];
    ConcatContainsPart(parts, 3);
    ConcatContainsPart(parts, 7);
    ConcatEndsWithLast(parts);
    ConcatEndsWithLast(parts[..10]);
    assert parts[..10][..9] == parts[..9] == [p0, p1, p2, p3, p4, p5, p6, p7, p8];
  }

  /** A join of eleven parts, regrouped around its fourth and eighth parts:
      what comes before the fourth, the fourth, the three between, the
      eighth, and the last three one by one. */
  lemma {:induction false} PageTemplateOrder(parts: seq<string>)
    requires |parts| == 11
    ensures Concat(parts) ==
      Concat(parts[..3]) + parts[3] + Concat(parts[4..7]) + parts[7] + parts[8] + parts[9] + parts[10]
  {
    assert parts == parts[..3] + parts[3..];
    ConcatAppend(parts[..3], parts[3..]);
    assert parts[3..][1..] == parts[4..];
    assert parts[4..] == parts[4..7] + parts[7..];
    ConcatAppend(parts[4..7], parts[7..]);
    var t := parts[7..];
    assert Concat(t[3..]) == parts[10] by {
      assert t[3..][1..] == [];
      assert parts[10] + "" == parts[10];
    }
    assert Concat(t[2..]) == parts[9] + Concat(t[3..]) by { assert t[2..][1..] == t[3..]; }
    assert Concat(t[1..]) == parts[8] + Concat(t[2..]) by { assert t[1..][1..] == t[2..]; }
    assert Concat(t) == parts[7] + Concat(t[1..]);
  }

  /** The page names its title, then shows the header, then ends with the
      rendered Markdown and the closing tags. */
  lemma {:induction false} HtmlPageShape(authorTag: string, title: string, headAssets: string, header: string, htmlContent: string)
    ensures var page := HtmlPage(authorTag, title, headAssets, header, htmlContent);
      && Contains(page, TitleElement(title))
      && Contains(page, header)
      && (exists front :: page == front + htmlContent + PageEnd())
      && (exists head, between, after ::
            page == head + TitleElement(title) + between + header + after + htmlContent + PageEnd())
  {
    PageTemplateParts(HeadStart(), authorTag, "\n    ", TitleElement(title), "\n    ", headAssets,
                "\n<body>\n    ", header, "\n    ", htmlContent, PageEnd());
    var front := Concat([HeadStart(), authorTag, "\n    ", TitleElement(title), "\n    ", headAssets,
                         "\n<body>\n    ", header, "\n    "]);
    assert HtmlPage(authorTag, title, headAssets, header, htmlContent) == front + htmlContent + PageEnd();
    var parts := PageParts(authorTag, title, headAssets, header, htmlContent);
    PageTemplateOrder(parts);
    var head, between := Concat(parts[..3]), Concat(parts[4..7]);
    assert HtmlPage(authorTag, title, headAssets, header, htmlContent) ==
      head + TitleElement(title) + between + header + "\n    " + htmlContent + PageEnd();
  }

  /** The laid-out size of the PDF wrapper (`scrollWidth`, `scrollHeight`),
      measured by the browser. */
  datatype Layout = Layout(width: Pos, height: nat)

  /** The HTML the PDF export lays out: the PDF header, then the rendered
      Markdown. */
  function PdfContent(m: Metadata, htmlContent: string, esc: Escaper, fmt: DateFormatter): string {
    HeaderOf(PdfHeader, Fields(m), esc, fmt) + htmlContent
  }

  /** `exportPDF`: lay out the header and the rendered Markdown, then write
      one page per slice of it. */
  method ExportPdf(m: Metadata, markdown: string, render: MarkdownRenderer, esc: Escaper, fmt: DateFormatter,
                   measure: string -> Layout, rasterFor: string -> Rasterizer) returns (file: SavedPdf)
    ensures var content := PdfContent(m, render(markdown), esc, fmt);
      file == SavedPdf(GetFilename(m.title, "pdf"),
                       ExpectedPages(rasterFor(content), measure(content).width, measure(content).height))
  {
    var htmlContent := render(markdown);
    var header := BuildMetadataHeader(m, esc, fmt);
    var content := header + htmlContent;
    var layout := measure(content);
    file := GeneratePdfChunked(layout.width, layout.height, GetFilename(m.title, "pdf"), rasterFor(content));
  }

  /** With its check box cleared the author reaches no export: each export
      is the same whatever the author field holds. */
  lemma {:induction false} ExcludedAuthorNeverExported(m: Metadata, other: string, content: string, htmlContent: string,
                                    headAssets: string, esc: Escaper, fmt: DateFormatter)
    requires !m.includeAuthor
    ensures var m' := m.(author := other);
      && FrontMatterOf(Fields(m')) + content == FrontMatterOf(Fields(m)) + content
      && MetaAuthorTag(m', esc) == "" && MetaAuthorTag(m, esc) == ""
      && HtmlDocument(m', htmlContent, headAssets, esc, fmt) == HtmlDocument(m, htmlContent, headAssets, esc, fmt)
      && PdfContent(m', htmlContent, esc, fmt) == PdfContent(m, htmlContent, esc, fmt)
  {
    var m' := m.(author := other);
    assert Fields(m') == Fields(m);
    assert MetaAuthorTag(m', esc) == MetaAuthorTag(m, esc) == "";
    assert DocumentTitle(m') == DocumentTitle(m);
  }
}
