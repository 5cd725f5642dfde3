/** The page geometry of the chunked PDF export (`generatePDFChunked`): an A4
    page in millimetres, the content box at 96 pixels per inch, and the
    division of the measured content height into one pixel slice per page.
    Arithmetic is exact (real numbers); IEEE rounding is not modelled. */
module Pagination {
  import opened Numeric

  /** A strictly positive pixel count (the measured content width). */
  type Pos = n: int | n > 0 witness 1

  const PageWidth: real := 210.0
  const PageHeight: real := 297.0
  const Margin: real := 15.0
  const ContentWidth: real := PageWidth - Margin * 2.0
  const ContentHeight: real := PageHeight - Margin * 2.0

  /** Pixels per millimetre at 96 DPI. */
  const MmToPx: real := 96.0 / 25.4
  const RenderWidth: real := ContentWidth * MmToPx
  const RenderHeight: real := ContentHeight * MmToPx

  /** `Math.ceil`. */
  function Ceil(x: real): int {
    -((-x).Floor)
  }

  lemma {:induction false} CeilBounds(x: real)
    ensures Ceil(x) as real >= x && (Ceil(x) - 1) as real < x
  {
  }

  /** Content pixels to page pixels. */
  function Scale(totalWidth: Pos): real {
    RenderWidth / totalWidth as real
  }

  /** `Math.ceil(totalHeight * scale / renderHeight)`. */
  function NumPages(totalWidth: Pos, totalHeight: nat): int {
    Ceil(totalHeight as real * Scale(totalWidth) / RenderHeight)
  }

  /** Content pixels captured per page: `renderHeight / scale`. */
  function ChunkHeight(totalWidth: Pos): real {
    RenderHeight / Scale(totalWidth)
  }

  /** `page * chunkHeight`. */
  function YOffset(totalWidth: Pos, page: nat): real {
    page as real * ChunkHeight(totalWidth)
  }

  /** `Math.min(chunkHeight, totalHeight - yOffset)`. */
  function HeightToRender(totalWidth: Pos, totalHeight: nat, page: nat): real {
    Min(ChunkHeight(totalWidth), totalHeight as real - YOffset(totalWidth, page))
  }

  /** A page holds a slice of content as tall as the content box is in
      proportion to its width: 267/180 of the content width. */
  lemma {:induction false} ChunkHeightIsAspect(totalWidth: Pos)
    ensures ChunkHeight(totalWidth) == totalWidth as real * (ContentHeight / ContentWidth)
    ensures ChunkHeight(totalWidth) > 0.0
  {
    var w := totalWidth as real;
    assert RenderHeight / (RenderWidth / w) == w * (RenderHeight / RenderWidth);
    assert RenderHeight / RenderWidth == ContentHeight / ContentWidth;
  }

  /** The page count is the number of chunks needed to hold the content,
      rounded up. */
  lemma {:induction false} NumPagesIsChunkCount(totalWidth: Pos, totalHeight: nat)
    ensures NumPages(totalWidth, totalHeight) == Ceil(totalHeight as real / ChunkHeight(totalWidth))
  {
    var w := totalWidth as real;
    var h := totalHeight as real;
    ChunkHeightIsAspect(totalWidth);
    assert h * (RenderWidth / w) / RenderHeight == h / (w * (RenderHeight / RenderWidth));
  }

  // Slices of a height `h` into chunks of height `c`.

  lemma {:induction false} MulLess(a: real, b: real, c: real)
    requires a < b && c > 0.0
    ensures a * c < b * c
  {
  }

  lemma {:induction false} MulAtMost(a: real, b: real, c: real)
    requires a <= b && c > 0.0
    ensures a * c <= b * c
  {
  }

  /** Every slice before the page count starts inside the content. */
  lemma {:induction false} SliceStartsInside(c: real, h: real, p: nat)
    requires c > 0.0 && h >= 0.0 && p < Ceil(h / c)
    ensures p as real * c < h
  {
    CeilBounds(h / c);
    MulLess(p as real, h / c, c);
    assert (h / c) * c == h;
  }

  /** The content ends inside the last slice. */
  lemma {:induction false} LastSliceReachesEnd(c: real, h: real)
    requires c > 0.0 && h >= 0.0 && Ceil(h / c) > 0
    ensures h - (Ceil(h / c) - 1) as real * c <= c
  {
    CeilBounds(h / c);
    MulAtMost(h / c, Ceil(h / c) as real, c);
    assert (h / c) * c == h;
  }

  /** There are pages exactly when there is content. */
  lemma {:induction false} NumPagesPositiveIff(totalWidth: Pos, totalHeight: nat)
    ensures NumPages(totalWidth, totalHeight) >= 0
    ensures NumPages(totalWidth, totalHeight) > 0 <==> totalHeight > 0
  {
    NumPagesIsChunkCount(totalWidth, totalHeight);
    ChunkHeightIsAspect(totalWidth);
    var c := ChunkHeight(totalWidth);
    var h := totalHeight as real;
    CeilBounds(h / c);
    if totalHeight > 0 {
      assert h / c > 0.0;
    } else {
      assert h / c == 0.0;
    }
  }

  /** Each page renders a non-empty slice no taller than a chunk; every page
      except the last renders a full chunk. */
  lemma {:induction false} SliceHeights(totalWidth: Pos, totalHeight: nat, page: nat)
    requires page < NumPages(totalWidth, totalHeight)
    ensures 0.0 < HeightToRender(totalWidth, totalHeight, page) <= ChunkHeight(totalWidth)
    ensures page + 1 < NumPages(totalWidth, totalHeight) ==>
      HeightToRender(totalWidth, totalHeight, page) == ChunkHeight(totalWidth)
  {
    NumPagesIsChunkCount(totalWidth, totalHeight);
    ChunkHeightIsAspect(totalWidth);
    var c := ChunkHeight(totalWidth);
    var h := totalHeight as real;
    SliceStartsInside(c, h, page);
    if page + 1 < NumPages(totalWidth, totalHeight) {
      SliceStartsInside(c, h, page + 1);
      assert (page + 1) as real * c == page as real * c + c;
    }
  }

  /** The last page's slice ends exactly at the bottom of the content. */
  lemma {:induction false} LastSliceEndsAtBottom(totalWidth: Pos, totalHeight: nat)
    requires NumPages(totalWidth, totalHeight) > 0
    ensures var last := NumPages(totalWidth, totalHeight) - 1;
      YOffset(totalWidth, last) + HeightToRender(totalWidth, totalHeight, last) == totalHeight as real
  {
    NumPagesIsChunkCount(totalWidth, totalHeight);
    ChunkHeightIsAspect(totalWidth);
    LastSliceReachesEnd(ChunkHeight(totalWidth), totalHeight as real);
  }

  /** Consecutive slices abut: each page starts where the previous one ended. */
  lemma {:induction false} SlicesAreContiguous(totalWidth: Pos, totalHeight: nat, page: nat)
    requires page + 1 < NumPages(totalWidth, totalHeight)
    ensures YOffset(totalWidth, page) + HeightToRender(totalWidth, totalHeight, page)
      == YOffset(totalWidth, page + 1)
  {
    SliceHeights(totalWidth, totalHeight, page);
    var c := ChunkHeight(totalWidth);
    assert (page + 1) as real * c == page as real * c + c;
  }

  /** Total height rendered by the first `k` pages. */
  function RenderedHeight(totalWidth: Pos, totalHeight: nat, k: nat): real {
    if k == 0 then 0.0
    else RenderedHeight(totalWidth, totalHeight, k - 1) + HeightToRender(totalWidth, totalHeight, k - 1)
  }

  /** The first `k` pages render the content down to the start of page `k`,
      and all of them render the whole content, exactly once. */
  lemma {:induction false} RenderedHeightPrefix(totalWidth: Pos, totalHeight: nat, k: nat)
    requires k <= NumPages(totalWidth, totalHeight)
    ensures k < NumPages(totalWidth, totalHeight) ==>
      RenderedHeight(totalWidth, totalHeight, k) == YOffset(totalWidth, k)
    ensures k == NumPages(totalWidth, totalHeight) ==>
      RenderedHeight(totalWidth, totalHeight, k) == totalHeight as real
  {
    NumPagesPositiveIff(totalWidth, totalHeight);
    if k > 0 {
      RenderedHeightPrefix(totalWidth, totalHeight, k - 1);
      if k < NumPages(totalWidth, totalHeight) {
        SlicesAreContiguous(totalWidth, totalHeight, k - 1);
      } else {
        LastSliceEndsAtBottom(totalWidth, totalHeight);
      }
    }
  }

  /** A 360 pixel wide, 1869 pixel tall document: chunks of 534 pixels, four
      pages, the last of them half full. */
  lemma {:induction false} ExampleFourPages()
    ensures ChunkHeight(360) == 534.0
    ensures NumPages(360, 1869) == 4
    ensures HeightToRender(360, 1869, 3) == 267.0
  {
    ChunkHeightIsAspect(360);
    NumPagesIsChunkCount(360, 1869);
    assert 1869.0 / 534.0 == 3.5;
  }
}
