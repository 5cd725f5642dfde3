/** The chunked PDF writer (`generatePDFChunked`): one jsPDF page per content
    slice, each slice rasterised by html2canvas at scale 2, retried at scale 1,
    and replaced by a text placeholder when both attempts fail. */
module PdfExport {
  import opened Wrappers
  import opened Text
  import opened Pagination
  import opened Numeric

  /** A rendered bitmap; html2canvas never yields an empty one. */
  datatype Canvas = Canvas(width: Pos, height: Pos)

  /** The html2canvas options that vary between calls: the device scale and
      the captured window `y`, `height` and `width`. */
  datatype RenderRequest = RenderRequest(scale: int, y: real, height: real, width: Pos)

  /** One attempt of the page loop's `try` block: html2canvas, `toDataURL`
      and `pdf.addImage` give a canvas, or `None` when any of them throws.
      The renderer is an oracle; its drawing is not modelled. */
  type Rasterizer = RenderRequest -> Option<Canvas>

  /** A JPEG data URL of a canvas at a quality. */
  datatype Image = Jpeg(canvas: Canvas, quality: real)

  /** What a page can hold: an image placed at (x, y) with size w × h, or a
      line of text at (x, y) in a font size (all in millimetres / points). */
  datatype Mark =
    | Picture(image: Image, x: real, y: real, w: real, h: real)
    | Caption(text: string, x: real, y: real, fontSize: real)

  type Page = seq<Mark>

  /** The file `pdf.save(filename)` hands to the browser. */
  datatype SavedPdf = SavedPdf(filename: string, pages: seq<Page>)

  /** jsPDF's default font size. */
  const DefaultFontSize: real := 16.0
  const PlaceholderFontSize: real := 12.0
  const FirstQuality: real := 0.92
  const RetryQuality: real := 0.85

  /** `pages` with `m` drawn on the last (current) page. */
  function DrawOnLast(pages: seq<Page>, m: Mark): (r: seq<Page>)
    requires pages != []
    ensures |r| == |pages| && r[..|r| - 1] == pages[..|pages| - 1]
    ensures r[|r| - 1] == pages[|pages| - 1] + [m]
  {
    pages[..|pages| - 1] + [pages[|pages| - 1] + [m]]
  }

  /** A jsPDF document: its pages in order (the last is the current page) and
      the current font size. */
  class PdfDocument {
    var pages: seq<Page>
    var fontSize: real

    /** `new jsPDF(…)` opens with one blank page. */
    constructor ()
      ensures pages == [[]] && fontSize == DefaultFontSize
    {
      pages := [[]];
      fontSize := DefaultFontSize;
    }

    method AddPage()
      modifies this
      ensures pages == old(pages) + [[]] && fontSize == old(fontSize)
    {
      pages := pages + [[]];
    }

    method AddImage(image: Image, x: real, y: real, w: real, h: real)
      requires pages != []
      modifies this
      ensures pages == DrawOnLast(old(pages), Picture(image, x, y, w, h))
      ensures fontSize == old(fontSize)
    {
      pages := DrawOnLast(pages, Picture(image, x, y, w, h));
    }

    method SetFontSize(size: real)
      modifies this
      ensures fontSize == size && pages == old(pages)
    {
      fontSize := size;
    }

    /** Text is drawn in the current font size. */
    method Text(text: string, x: real, y: real)
      requires pages != []
      modifies this
      ensures pages == DrawOnLast(old(pages), Caption(text, x, y, old(fontSize)))
      ensures fontSize == old(fontSize)
    {
      pages := DrawOnLast(pages, Caption(text, x, y, fontSize));
    }

    method Save(filename: string) returns (file: SavedPdf)
      ensures file == SavedPdf(filename, pages)
    {
      file := SavedPdf(filename, pages);
    }
  }

  /** The window rendered for `page` at a device scale. */
  function Request(scale: int, totalWidth: Pos, totalHeight: nat, page: nat): RenderRequest {
    RenderRequest(scale, YOffset(totalWidth, page), HeightToRender(totalWidth, totalHeight, page), totalWidth)
  }

  /** The on-page height of a canvas drawn 180 mm wide, capped at the
      content box height. */
  function PlacedHeight(c: Canvas): real {
    Min(c.height as real * ContentWidth / c.width as real, ContentHeight)
  }

  function PictureOf(c: Canvas, quality: real): Mark {
    Picture(Jpeg(c, quality), Margin, Margin, ContentWidth, PlacedHeight(c))
  }

  function PlaceholderText(page: nat): string {
    "[Content chunk " + NatToString(page + 1) + " could not be rendered]"
  }

  /** What page `page` shows under the retry policy. */
  function PageMark(raster: Rasterizer, totalWidth: Pos, totalHeight: nat, page: nat): Mark {
    match raster(Request(2, totalWidth, totalHeight, page))
    case Some(c) => PictureOf(c, FirstQuality)
    case None =>
      match raster(Request(1, totalWidth, totalHeight, page))
      case Some(c) => PictureOf(c, RetryQuality)
      case None => Caption(PlaceholderText(page), Margin, Margin + 20.0, PlaceholderFontSize)
  }

  /** The first `k` rendered pages. */
  function RenderedPages(raster: Rasterizer, totalWidth: Pos, totalHeight: nat, k: nat): seq<Page> {
    seq(k, p requires 0 <= p < k => [PageMark(raster, totalWidth, totalHeight, p)])
  }

  /** The pages of the finished document: one per slice, or jsPDF's single
      blank page when there is nothing to render. */
  function ExpectedPages(raster: Rasterizer, totalWidth: Pos, totalHeight: nat): seq<Page> {
    var n := NumPages(totalWidth, totalHeight);
    if n <= 0 then [[]] else RenderedPages(raster, totalWidth, totalHeight, n)
  }

  /** Drawing on a freshly added blank page. */
  lemma {:induction false} DrawOnBlank(pages: seq<Page>, m: Mark)
    ensures DrawOnLast(pages + [[]], m) == pages + [[m]]
  {
    var grown := pages + [[]];
    assert grown[..|pages|] == pages;
    assert grown[|pages|] + [m] == [m];
  }

  lemma {:induction false} RenderedPagesSnoc(raster: Rasterizer, totalWidth: Pos, totalHeight: nat, k: nat)
    ensures RenderedPages(raster, totalWidth, totalHeight, k + 1) ==
      RenderedPages(raster, totalWidth, totalHeight, k) + [[PageMark(raster, totalWidth, totalHeight, k)]]
  {
  }

  /** One pass of the page loop: render the slice of `page` and draw the
      result, or the placeholder, on the current page. */
  method RenderPage(pdf: PdfDocument, raster: Rasterizer, totalWidth: Pos, totalHeight: nat, page: nat)
    requires pdf.pages != []
    modifies pdf
    ensures pdf.pages == DrawOnLast(old(pdf.pages), PageMark(raster, totalWidth, totalHeight, page))
    ensures pdf.fontSize ==
      if PageMark(raster, totalWidth, totalHeight, page).Caption? then PlaceholderFontSize else old(pdf.fontSize)
  {
    var chunkHeight := ChunkHeight(totalWidth);
    var yOffset := page as real * chunkHeight;
    var heightToRender := Min(chunkHeight, totalHeight as real - yOffset);
    assert RenderRequest(2, yOffset, heightToRender, totalWidth) == Request(2, totalWidth, totalHeight, page);
    assert RenderRequest(1, yOffset, heightToRender, totalWidth) == Request(1, totalWidth, totalHeight, page);
    var first := raster(RenderRequest(2, yOffset, heightToRender, totalWidth));
    if first.Some? {
      var canvas := first.value;
      var imgHeight := canvas.height as real * ContentWidth / canvas.width as real;
      pdf.AddImage(Jpeg(canvas, FirstQuality), Margin, Margin, ContentWidth, Min(imgHeight, ContentHeight));
    } else {
      var second := raster(RenderRequest(1, yOffset, heightToRender, totalWidth));
      if second.Some? {
        var canvas := second.value;
        var imgHeight := canvas.height as real * ContentWidth / canvas.width as real;
        pdf.AddImage(Jpeg(canvas, RetryQuality), Margin, Margin, ContentWidth, Min(imgHeight, ContentHeight));
      } else {
        pdf.SetFontSize(PlaceholderFontSize);
        pdf.Text("[Content chunk " + NatToString(page + 1) + " could not be rendered]", Margin, Margin + 20.0);
      }
    }
  }

  /** `generatePDFChunked` on content measured `totalWidth` × `totalHeight`
      pixels. */
  method GeneratePdfChunked(totalWidth: Pos, totalHeight: nat, filename: string, raster: Rasterizer)
    returns (file: SavedPdf)
    ensures file == SavedPdf(filename, ExpectedPages(raster, totalWidth, totalHeight))
  {
    var numPages := NumPages(totalWidth, totalHeight);
    var pdf := new PdfDocument();
    var page: nat := 0;
    while page < numPages
      invariant numPages > 0 ==> page <= numPages
      invariant numPages <= 0 ==> page == 0
      invariant page == 0 ==> pdf.pages == [[]]
      invariant page > 0 ==> pdf.pages == RenderedPages(raster, totalWidth, totalHeight, page)
    {
      ghost var done := if page == 0 then [] else pdf.pages;
      if page > 0 {
        pdf.AddPage();
      }
      assert pdf.pages == done + [[]];
      RenderPage(pdf, raster, totalWidth, totalHeight, page);
      DrawOnBlank(done, PageMark(raster, totalWidth, totalHeight, page));
      RenderedPagesSnoc(raster, totalWidth, totalHeight, page);
      page := page + 1;
    }
    file := pdf.Save(filename);
  }

  /** One page per slice, and a single blank page for empty content. */
  lemma {:induction false} PageCount(raster: Rasterizer, totalWidth: Pos, totalHeight: nat)
    ensures totalHeight == 0 ==> ExpectedPages(raster, totalWidth, totalHeight) == [[]]
    ensures totalHeight > 0 ==>
      |ExpectedPages(raster, totalWidth, totalHeight)| == NumPages(totalWidth, totalHeight) > 0
  {
    NumPagesPositiveIff(totalWidth, totalHeight);
  }

  /** Every page of a non-empty document carries exactly one mark. */
  lemma {:induction false} OneMarkPerPage(raster: Rasterizer, totalWidth: Pos, totalHeight: nat, p: nat)
    requires totalHeight > 0 && p < |ExpectedPages(raster, totalWidth, totalHeight)|
    ensures ExpectedPages(raster, totalWidth, totalHeight)[p] == [PageMark(raster, totalWidth, totalHeight, p)]
  {
    NumPagesPositiveIff(totalWidth, totalHeight);
  }

  /** A picture fills the content box's width at the top margin, never
      reaches past its bottom, and keeps the canvas's aspect ratio unless it
      is cut off. */
  lemma {:induction false} PictureInsideContentBox(raster: Rasterizer, totalWidth: Pos, totalHeight: nat, page: nat)
    requires PageMark(raster, totalWidth, totalHeight, page).Picture?
    ensures var m := PageMark(raster, totalWidth, totalHeight, page);
      && m.x == Margin && m.y == Margin && m.w == ContentWidth
      && 0.0 < m.h <= ContentHeight
      && Margin + m.h <= PageHeight - Margin
      && (m.h < ContentHeight ==>
            m.h / m.w == m.image.canvas.height as real / m.image.canvas.width as real)
  {
    var m := PageMark(raster, totalWidth, totalHeight, page);
    var c := m.image.canvas;
    assert c.height as real * ContentWidth / c.width as real > 0.0;
    if m.h < ContentHeight {
      assert m.h == c.height as real * ContentWidth / c.width as real;
    }
  }

  /** The quality of a picture records which attempt produced it, and a page
      shows the placeholder exactly when both attempts fail. */
  lemma {:induction false} RetryPolicy(raster: Rasterizer, totalWidth: Pos, totalHeight: nat, page: nat)
    ensures var m := PageMark(raster, totalWidth, totalHeight, page);
      && (raster(Request(2, totalWidth, totalHeight, page)).Some? <==>
            m.Picture? && m.image.quality == FirstQuality)
      && (raster(Request(2, totalWidth, totalHeight, page)).None? &&
          raster(Request(1, totalWidth, totalHeight, page)).Some? <==>
            m.Picture? && m.image.quality == RetryQuality)
      && (m.Caption? <==>
            raster(Request(2, totalWidth, totalHeight, page)).None? &&
            raster(Request(1, totalWidth, totalHeight, page)).None?)
  {
  }

  /** Placeholders name their page, so no two failed pages read alike. */
  lemma {:induction false} PlaceholdersDistinct(p: nat, q: nat)
    requires p != q
    ensures PlaceholderText(p) != PlaceholderText(q)
  {
    NatToStringInjective(p + 1, q + 1);
    var a := NatToString(p + 1);
    var b := NatToString(q + 1);
    var n := |"[Content chunk "|;
    if |a| == |b| {
      assert PlaceholderText(p)[n..n + |a|] == a;
      assert PlaceholderText(q)[n..n + |b|] == b;
    } else {
      assert |PlaceholderText(p)| != |PlaceholderText(q)|;
    }
  }

  /** A page whose own two attempts both fail shows the placeholder, whatever
      happens on the other pages. */
  lemma {:induction false} AllFailuresGivePlaceholders(raster: Rasterizer, totalWidth: Pos, totalHeight: nat, p: nat)
    requires raster(Request(2, totalWidth, totalHeight, p)) == None
    requires raster(Request(1, totalWidth, totalHeight, p)) == None
    requires totalHeight > 0 && p < |ExpectedPages(raster, totalWidth, totalHeight)|
    ensures ExpectedPages(raster, totalWidth, totalHeight)[p] ==
      [Caption(PlaceholderText(p), 15.0, 35.0, 12.0)]
  {
    OneMarkPerPage(raster, totalWidth, totalHeight, p);
  }
}
