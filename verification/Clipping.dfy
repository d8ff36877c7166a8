/** How a placement is clipped to its pane: which cells it covers, and which pixels of the image they show. */
module Clipping {
  import opened Prelude
  import opened KittyProtocol

  datatype Rect = Rect(x: u16, y: u16, width: u16, height: u16)

  datatype Render = Render(
    pixelWidth: u32, pixelHeight: u32, gridCols: u32, gridRows: u32,
    viewportCol: i32, viewportRow: i32,
    sourceX: u32, sourceY: u32, sourceWidth: u32, sourceHeight: u32)

  datatype Unclipped = Unclipped(
    area: Rect, cellWidth: u32, cellHeight: u32, imageWidth: u32, imageHeight: u32,
    xOffset: u32, yOffset: u32, z: i32, render: Render)

  /** One axis of a clipped placement: first cell relative to the pane, cells, first pixel, pixels. */
  datatype Span = Span(cell: nat, cells: u32, pixel: u32, pixels: u32)

  /** Floor of value * source / dest, capped to 32 bits. The 64-bit product of two 32-bit numbers is exact. */
  function ScalePixels(value: u32, source: u32, dest: u32): u32 {
    Min(Product(value, source) / Max(dest, 1), U32_MAX)
  }

  function Product(a: nat, b: nat): nat { a * b }

  /** The cells cut off before the pane: the saturating negation of a negative viewport position. */
  function ClippedCells(viewport: i32): u32 {
    if viewport < 0 then Min(-(viewport as int), 0x7FFF_FFFF) else 0
  }

  /** The pixel width of the whole grid, at least what the program asked for and at least one. */
  function GridPixels(pixels: u32, grid: u32, cell: u32): u32 {
    Max(Max(pixels, SatMul(grid, cell, U32_MAX)), 1)
  }

  /** The source length in effect: zero asks for the whole image. */
  function Window(sourceLen: u32, imageLen: u32): u32 {
    if sourceLen == 0 then imageLen else sourceLen
  }

  /** Clip one axis. `areaLen` and `cell` are the pane and the cell along that axis; positions wrap in 32 bits. */
  function ClipAxis(areaLen: u16, grid: u32, viewport: i32, cell: u32, pixels: u32,
                    sourceStart: u32, sourceLen: u32, imageLen: u32): Option<Span> {
    var cut := ClippedCells(viewport);
    var first := Max(viewport, 0);
    if areaLen == 0 || grid == 0 || first >= areaLen then None
    else
      var visible := Min(SatSub(grid, cut), areaLen - first);
      if visible == 0 then None
      else
        var window := Window(sourceLen, imageLen);
        var total := GridPixels(pixels, grid, cell);
        var start := (sourceStart + ScalePixels(SatMul(cut, cell, U32_MAX), window, total)) % 0x1_0000_0000;
        var length := Min(Max(ScalePixels(SatMul(visible, cell, U32_MAX), window, total), 1), SatSub(imageLen, start));
        if length == 0 then None else Some(Span(first, visible, start, length))
  }

  /** `clipped_placement`: both axes, or nothing when either has nothing to show. */
  function Clip(p: Unclipped): Option<Shown> {
    var r := p.render;
    var h := ClipAxis(p.area.width, r.gridCols, r.viewportCol, p.cellWidth, r.pixelWidth, r.sourceX, r.sourceWidth,
                      p.imageWidth);
    var v := ClipAxis(p.area.height, r.gridRows, r.viewportRow, p.cellHeight, r.pixelHeight, r.sourceY, r.sourceHeight,
                      p.imageHeight);
    if h.None? || v.None? then None
    else
      Some(Shown(
        (p.area.x + h.value.cell) % 0x1_0000, (p.area.y + v.value.cell) % 0x1_0000,
        h.value.cells, v.value.cells,
        h.value.pixel, v.value.pixel, h.value.pixels, v.value.pixels,
        if ClippedCells(r.viewportCol) == 0 then p.xOffset else 0,
        if ClippedCells(r.viewportRow) == 0 then p.yOffset else 0,
        p.z))
  }

  // --- In bounds ---

  /** What is shown covers cells of the pane only, and a nonempty part of the image only. */
  predicate InBounds(area: Rect, imageWidth: u32, imageHeight: u32, s: Shown) {
    && area.x <= s.x && s.x + s.cols <= area.x + area.width && s.cols > 0
    && area.y <= s.y && s.y + s.rows <= area.y + area.height && s.rows > 0
    && 0 < s.sourceWidth && s.sourceX + s.sourceWidth <= imageWidth
    && 0 < s.sourceHeight && s.sourceY + s.sourceHeight <= imageHeight
  }

  /** The right and bottom edges of the pane do not overflow. */
  predicate OnScreen(area: Rect) {
    area.x + area.width <= 0xFFFF && area.y + area.height <= 0xFFFF
  }

  lemma AxisInBounds(areaLen: u16, grid: u32, viewport: i32, cell: u32, pixels: u32,
                     sourceStart: u32, sourceLen: u32, imageLen: u32)
    ensures var c := ClipAxis(areaLen, grid, viewport, cell, pixels, sourceStart, sourceLen, imageLen);
            c.Some? ==> c.value.cells > 0 && c.value.cell + c.value.cells <= areaLen
                        && c.value.pixels > 0 && c.value.pixel + c.value.pixels <= imageLen
  {
  }

  lemma ClipInBounds(p: Unclipped)
    requires OnScreen(p.area) && Clip(p).Some?
    ensures InBounds(p.area, p.imageWidth, p.imageHeight, Clip(p).value)
  {
    var r := p.render;
    AxisInBounds(p.area.width, r.gridCols, r.viewportCol, p.cellWidth, r.pixelWidth, r.sourceX, r.sourceWidth,
                 p.imageWidth);
    AxisInBounds(p.area.height, r.gridRows, r.viewportRow, p.cellHeight, r.pixelHeight, r.sourceY, r.sourceHeight,
                 p.imageHeight);
  }

  // --- Inside the requested window ---

  /** Two floors of parts of `d` together never exceed the whole. */
  lemma FloorParts(a: nat, b: nat, s: nat, d: nat)
    requires d > 0 && a + b <= d
    ensures a * s / d + b * s / d <= s
  {
    Distribute(a, b, s);
    TimesMonotone(a + b, d, s);
    FloorsOf(a * s, b * s, s, d);
  }

  lemma FloorsOf(p: nat, q: nat, s: nat, d: nat)
    requires d > 0 && p + q <= d * s
    ensures p / d + q / d <= s
  {
    FloorTimes(p, d);
    FloorTimes(q, d);
    JoinFloors(p / d, q / d, p, q, s, d);
  }

  lemma Distribute(a: nat, b: nat, s: nat)
    ensures (a + b) * s == a * s + b * s
  {
  }

  lemma JoinFloors(x: nat, y: nat, p: nat, q: nat, s: nat, d: nat)
    requires d > 0 && x * d <= p && y * d <= q && p + q <= d * s
    ensures x + y <= s
  {
    Distribute(x, y, d);
    Cancel(x + y, s, d);
  }

  lemma FloorTimes(v: nat, d: nat)
    requires d > 0
    ensures v / d * d <= v
  {
  }

  lemma TimesMonotone(a: nat, b: nat, s: nat)
    requires a <= b
    ensures a * s <= b * s
  {
  }

  lemma Cancel(x: nat, s: nat, d: nat)
    requires d > 0 && x * d <= s * d
    ensures x <= s
  {
  }

  /** A proper part of `d` has a floor below the whole. */
  lemma FloorProper(a: nat, s: nat, d: nat)
    requires a < d && s > 0
    ensures a * s / d < s
  {
    var x := a * s / d;
    assert x * d <= a * s;
    assert a * s < d * s;
    CancelStrict(x, s, d);
  }

  lemma CancelStrict(x: nat, s: nat, d: nat)
    requires d > 0 && x * d < s * d
    ensures x < s
  {
  }

  /** A part of the grid takes at most the pixels of the grid, so its product does not saturate. */
  lemma PartPixels(part: nat, grid: u32, cell: u32)
    requires part <= grid && grid * cell <= U32_MAX
    ensures part * cell <= grid * cell && SatMul(part, cell, U32_MAX) == part * cell
  {
  }

  /** The scaled ends of the part that is shown, as numbers. */
  lemma ScaledParts(cut: nat, visible: nat, grid: u32, cell: u32, pixels: u32, window: u32)
    requires cut + visible <= grid && visible > 0 && grid * cell <= U32_MAX && window > 0
    ensures var total := GridPixels(pixels, grid, cell);
            var start := ScalePixels(SatMul(cut, cell, U32_MAX), window, total);
            var length := ScalePixels(SatMul(visible, cell, U32_MAX), window, total);
            start < window && start + Max(length, 1) <= window
  {
    var total := GridPixels(pixels, grid, cell);
    PartPixels(cut, grid, cell);
    PartPixels(visible, grid, cell);
    PartPixels(cut + visible, grid, cell);
    assert (cut + visible) * cell == cut * cell + visible * cell;
    assert visible * cell >= cell;
    FloorParts(cut * cell, visible * cell, window, total);
    FloorProper(cut * cell, window, total);
  }

  /** When the pixel products fit 32 bits and the requested window fits the image, what is shown stays
      inside that window, although both ends are floors and at least one pixel is shown. */
  lemma AxisInWindow(areaLen: u16, grid: u32, viewport: i32, cell: u32, pixels: u32,
                     sourceStart: u32, sourceLen: u32, imageLen: u32)
    requires grid * cell <= U32_MAX && sourceStart + Window(sourceLen, imageLen) <= imageLen
    ensures var c := ClipAxis(areaLen, grid, viewport, cell, pixels, sourceStart, sourceLen, imageLen);
            c.Some? ==> sourceStart <= c.value.pixel
                        && c.value.pixel + c.value.pixels <= sourceStart + Window(sourceLen, imageLen)
  {
    var c := ClipAxis(areaLen, grid, viewport, cell, pixels, sourceStart, sourceLen, imageLen);
    if c.Some? && Window(sourceLen, imageLen) > 0 {
      ScaledParts(ClippedCells(viewport), c.value.cells, grid, cell, pixels, Window(sourceLen, imageLen));
    }
  }

  lemma ClipInWindow(p: Unclipped)
    requires Clip(p).Some?
    requires p.render.gridCols * p.cellWidth <= U32_MAX && p.render.gridRows * p.cellHeight <= U32_MAX
    requires p.render.sourceX + Window(p.render.sourceWidth, p.imageWidth) <= p.imageWidth
    requires p.render.sourceY + Window(p.render.sourceHeight, p.imageHeight) <= p.imageHeight
    ensures var s := Clip(p).value;
            && p.render.sourceX <= s.sourceX
            && s.sourceX + s.sourceWidth <= p.render.sourceX + Window(p.render.sourceWidth, p.imageWidth)
            && p.render.sourceY <= s.sourceY
            && s.sourceY + s.sourceHeight <= p.render.sourceY + Window(p.render.sourceHeight, p.imageHeight)
  {
    var r := p.render;
    AxisInWindow(p.area.width, r.gridCols, r.viewportCol, p.cellWidth, r.pixelWidth, r.sourceX, r.sourceWidth,
                 p.imageWidth);
    AxisInWindow(p.area.height, r.gridRows, r.viewportRow, p.cellHeight, r.pixelHeight, r.sourceY, r.sourceHeight,
                 p.imageHeight);
  }

  /** Cell `i` of the grid falls on a cell of the pane. */
  predicate Lands(i: int, areaLen: u16, grid: u32, viewport: i32) {
    0 <= i < grid && 0 <= viewport + i < areaLen
  }

  /** The viewport position in effect: the least one cannot be negated, and counts as the next. */
  function Position(viewport: i32): i32 { Max(viewport, -0x7FFF_FFFF) }

  /** The pixel at which the visible part would start. */
  function FirstPixel(grid: u32, viewport: i32, cell: u32, pixels: u32, sourceStart: u32, sourceLen: u32, imageLen: u32)
      : u32
  {
    var cut := SatMul(ClippedCells(viewport), cell, U32_MAX);
    (sourceStart + ScalePixels(cut, Window(sourceLen, imageLen), GridPixels(pixels, grid, cell))) % 0x1_0000_0000
  }

  /** Something is shown along an axis exactly when some cell of the grid falls on the pane and the visible part starts
      inside the image. */
  lemma AxisShows(areaLen: u16, grid: u32, viewport: i32, cell: u32, pixels: u32,
                  sourceStart: u32, sourceLen: u32, imageLen: u32)
    ensures ClipAxis(areaLen, grid, viewport, cell, pixels, sourceStart, sourceLen, imageLen).Some?
            <==> (exists i :: Lands(i, areaLen, grid, Position(viewport)))
                 && FirstPixel(grid, viewport, cell, pixels, sourceStart, sourceLen, imageLen) < imageLen
  {
    var cut := ClippedCells(viewport);
    if i :| Lands(i, areaLen, grid, Position(viewport)) {
      assert Lands(cut, areaLen, grid, Position(viewport));
    }
    if areaLen > 0 && grid > cut && Max(viewport, 0) < areaLen {
      assert Lands(cut, areaLen, grid, Position(viewport));
    }
  }

  /** For a window within the image, that is when the window has a pixel. */
  lemma StartsInside(areaLen: u16, grid: u32, viewport: i32, cell: u32, pixels: u32,
                     sourceStart: u32, sourceLen: u32, imageLen: u32, i: int)
    requires Lands(i, areaLen, grid, Position(viewport))
    requires grid * cell <= U32_MAX && sourceStart + Window(sourceLen, imageLen) <= imageLen
    ensures FirstPixel(grid, viewport, cell, pixels, sourceStart, sourceLen, imageLen) < imageLen
            <==> Window(sourceLen, imageLen) > 0
  {
    var cut, first, window := ClippedCells(viewport), Max(viewport, 0), Window(sourceLen, imageLen);
    assert Lands(cut, areaLen, grid, Position(viewport));
    if window > 0 {
      ScaledParts(cut, Min(grid - cut, areaLen - first), grid, cell, pixels, window);
    } else {
      NoWindow(cut, grid, cell, pixels);
    }
  }

  lemma NoWindow(cut: nat, grid: u32, cell: u32, pixels: u32)
    requires cut <= grid && grid * cell <= U32_MAX
    ensures ScalePixels(SatMul(cut, cell, U32_MAX), 0, GridPixels(pixels, grid, cell)) == 0
  {
    ScaleZero(SatMul(cut, cell, U32_MAX), GridPixels(pixels, grid, cell));
  }

  lemma ScaleZero(value: u32, dest: u32)
    ensures ScalePixels(value, 0, dest) == 0
  {
    assert Product(value, 0) == 0;
  }

  // --- How much is shown ---

  /** `q` is the whole part of `n / d`, said without dividing. */
  predicate Quotient(q: nat, n: nat, d: nat) {
    q * d <= n < (q + 1) * d
  }

  lemma QuotientOf(n: nat, d: nat)
    requires d > 0
    ensures Quotient(n / d, n, d)
  {
  }

  /** What one axis of a clipped placement shows: exactly the cells of the pane that cells of the grid fall on, and of
      the window, which is spread over the pixels of the grid, from the pixel that the cut reaches on as many as these
      cells take, but one at least. */
  ghost predicate ShowsPart(areaLen: u16, grid: u32, viewport: i32, cell: u32, pixels: u32,
                            sourceStart: u32, sourceLen: u32, imageLen: u32, s: Span)
  {
    var total := Max(Max(pixels, grid * cell), 1);
    var window := if sourceLen == 0 then imageLen else sourceLen;
    && (forall x :: s.cell <= x < s.cell + s.cells <==> Covers(x, areaLen, grid, viewport))
    && s.pixel >= sourceStart
    && Quotient(s.pixel - sourceStart, CutPixels(viewport, cell) * window, total)
    && if s.cells * cell * window >= total then Quotient(s.pixels, s.cells * cell * window, total) else s.pixels == 1
  }

  /** A cell of the grid falls on cell `x` of the pane. */
  predicate Covers(x: int, areaLen: u16, grid: u32, viewport: i32) {
    Lands(x - viewport, areaLen, grid, viewport)
  }

  /** The pixels of the grid in front of the pane. */
  function CutPixels(viewport: i32, cell: u32): nat {
    if viewport < 0 then Product(-(viewport as int), cell) else 0
  }

  /** Scaling a part of `total` is an exact quotient: neither product nor result saturates. */
  lemma ScaledQuotient(part: u32, window: u32, total: u32)
    requires part <= total && total > 0
    ensures Quotient(ScalePixels(part, window, total), part * window, total)
  {
    QuotientOf(part * window, total);
    FloorAtMost(part, window, total);
  }

  lemma FloorAtMost(a: nat, s: nat, d: nat)
    requires d > 0 && a <= d
    ensures a * s / d <= s
  {
    TimesMonotone(a, d, s);
    FloorTimes(a * s, d);
    Cancel(a * s / d, s, d);
  }

  lemma QuotientPositive(q: nat, n: nat, d: nat)
    requires Quotient(q, n, d) && d > 0
    ensures q >= 1 <==> n >= d
  {
    if q >= 1 { TimesMonotone(1, q, d); }
  }

  lemma AxisShowsPart(areaLen: u16, grid: u32, viewport: i32, cell: u32, pixels: u32,
                      sourceStart: u32, sourceLen: u32, imageLen: u32)
    requires grid * cell <= U32_MAX && sourceStart + Window(sourceLen, imageLen) <= imageLen
    ensures var c := ClipAxis(areaLen, grid, viewport, cell, pixels, sourceStart, sourceLen, imageLen);
            c.Some? ==>
              ShowsPart(areaLen, grid, Position(viewport), cell, pixels, sourceStart, sourceLen, imageLen, c.value)
  {
    var c := ClipAxis(areaLen, grid, viewport, cell, pixels, sourceStart, sourceLen, imageLen);
    var cut, w, total := ClippedCells(viewport), Window(sourceLen, imageLen), GridPixels(pixels, grid, cell);
    if c.Some? {
      var visible := c.value.cells;
      AxisShows(areaLen, grid, viewport, cell, pixels, sourceStart, sourceLen, imageLen);
      assert Lands(cut, areaLen, grid, Position(viewport));
      StartsInside(areaLen, grid, viewport, cell, pixels, sourceStart, sourceLen, imageLen, cut);
      ScaledParts(cut, visible, grid, cell, pixels, w);
      PartPixels(cut, grid, cell);
      PartPixels(visible, grid, cell);
      ScaledQuotient(cut * cell, w, total);
      ScaledQuotient(visible * cell, w, total);
      QuotientPositive(ScalePixels(visible * cell, w, total), visible * cell * w, total);
    }
  }

  /** A grid that is not cut, and takes all of its pixels itself, shows the whole window. */
  lemma WholeWindow(areaLen: u16, grid: u32, viewport: i32, cell: u32, pixels: u32,
                    sourceStart: u32, sourceLen: u32, imageLen: u32, s: Span)
    requires ShowsPart(areaLen, grid, viewport, cell, pixels, sourceStart, sourceLen, imageLen, s)
    requires viewport >= 0 && s.cells == grid && pixels <= grid * cell && grid * cell > 0
             && Window(sourceLen, imageLen) > 0
    ensures s.pixel == sourceStart && s.pixels == Window(sourceLen, imageLen)
  {
    var w, total := Window(sourceLen, imageLen), grid * cell;
    assert CutPixels(viewport, cell) * w == 0;
    QuotientPositive(s.pixel - sourceStart, 0, total);
    TimesMonotone(1, w, total);
    SameQuotient(s.pixels, w, total);
  }

  lemma SameQuotient(q: nat, w: nat, d: nat)
    requires d > 0 && Quotient(q, d * w, d)
    ensures q == w
  {
    CancelStrict(w, q + 1, d);
    Cancel(q, w, d);
  }

  /** One axis of a clipped placement. */
  function SpanX(p: Unclipped, s: Shown): Span
    requires s.x >= p.area.x
  {
    Span(s.x - p.area.x, s.cols, s.sourceX, s.sourceWidth)
  }

  function SpanY(p: Unclipped, s: Shown): Span
    requires s.y >= p.area.y
  {
    Span(s.y - p.area.y, s.rows, s.sourceY, s.sourceHeight)
  }

  /** A clipped placement shows its part on either axis. Its offset within the first cell is kept on an axis exactly
      when nothing is cut off there, and its depth always. */
  lemma ClipShowsPart(p: Unclipped)
    requires OnScreen(p.area) && Clip(p).Some?
    requires p.render.gridCols * p.cellWidth <= U32_MAX && p.render.gridRows * p.cellHeight <= U32_MAX
    requires p.render.sourceX + Window(p.render.sourceWidth, p.imageWidth) <= p.imageWidth
    requires p.render.sourceY + Window(p.render.sourceHeight, p.imageHeight) <= p.imageHeight
    ensures var s, r := Clip(p).value, p.render;
            && p.area.x <= s.x && p.area.y <= s.y
            && ShowsPart(p.area.width, r.gridCols, Position(r.viewportCol), p.cellWidth, r.pixelWidth,
                         r.sourceX, r.sourceWidth, p.imageWidth, SpanX(p, s))
            && ShowsPart(p.area.height, r.gridRows, Position(r.viewportRow), p.cellHeight, r.pixelHeight,
                         r.sourceY, r.sourceHeight, p.imageHeight, SpanY(p, s))
            && s.xOffset == (if r.viewportCol < 0 then 0 else p.xOffset)
            && s.yOffset == (if r.viewportRow < 0 then 0 else p.yOffset)
            && s.z == p.z
  {
    var r := p.render;
    AxisShowsPart(p.area.width, r.gridCols, r.viewportCol, p.cellWidth, r.pixelWidth, r.sourceX, r.sourceWidth,
                  p.imageWidth);
    AxisShowsPart(p.area.height, r.gridRows, r.viewportRow, p.cellHeight, r.pixelHeight, r.sourceY, r.sourceHeight,
                  p.imageHeight);
    AxisInBounds(p.area.width, r.gridCols, r.viewportCol, p.cellWidth, r.pixelWidth, r.sourceX, r.sourceWidth,
                 p.imageWidth);
    AxisInBounds(p.area.height, r.gridRows, r.viewportRow, p.cellHeight, r.pixelHeight, r.sourceY, r.sourceHeight,
                 p.imageHeight);
  }

  lemma AxisWhole(areaLen: u16, grid: u32, viewport: i32, cell: u32, pixels: u32,
                  sourceStart: u32, sourceLen: u32, imageLen: u32)
    requires 0 <= viewport && viewport + grid <= areaLen
    requires 0 < grid * cell <= U32_MAX && pixels <= grid * cell
    requires sourceStart + Window(sourceLen, imageLen) <= imageLen && Window(sourceLen, imageLen) > 0
    ensures ClipAxis(areaLen, grid, viewport, cell, pixels, sourceStart, sourceLen, imageLen)
            == Some(Span(viewport, grid, sourceStart, Window(sourceLen, imageLen)))
  {
    var c := ClipAxis(areaLen, grid, viewport, cell, pixels, sourceStart, sourceLen, imageLen);
    assert grid > 0;
    assert Lands(0, areaLen, grid, Position(viewport));
    AxisShows(areaLen, grid, viewport, cell, pixels, sourceStart, sourceLen, imageLen);
    StartsInside(areaLen, grid, viewport, cell, pixels, sourceStart, sourceLen, imageLen, 0);
    AxisShowsPart(areaLen, grid, viewport, cell, pixels, sourceStart, sourceLen, imageLen);
    WholeWindow(areaLen, grid, viewport, cell, pixels, sourceStart, sourceLen, imageLen, c.value);
  }

  /** A grid that fits its pane and takes its pixels itself is shown whole, where it is placed, with the whole
      window. */
  lemma ClipWhole(p: Unclipped)
    requires var r := p.render;
             && OnScreen(p.area) && 0 <= r.viewportCol && 0 <= r.viewportRow
             && r.viewportCol + r.gridCols <= p.area.width && r.viewportRow + r.gridRows <= p.area.height
             && 0 < r.gridCols * p.cellWidth <= U32_MAX && r.pixelWidth <= r.gridCols * p.cellWidth
             && 0 < r.gridRows * p.cellHeight <= U32_MAX && r.pixelHeight <= r.gridRows * p.cellHeight
    requires p.render.sourceX + Window(p.render.sourceWidth, p.imageWidth) <= p.imageWidth
    requires p.render.sourceY + Window(p.render.sourceHeight, p.imageHeight) <= p.imageHeight
    requires Window(p.render.sourceWidth, p.imageWidth) > 0 && Window(p.render.sourceHeight, p.imageHeight) > 0
    ensures var r := p.render;
            Clip(p) == Some(Shown(p.area.x + r.viewportCol, p.area.y + r.viewportRow, r.gridCols, r.gridRows,
                                  r.sourceX, r.sourceY,
                                  Window(r.sourceWidth, p.imageWidth), Window(r.sourceHeight, p.imageHeight),
                                  p.xOffset, p.yOffset, p.z))
  {
    var r := p.render;
    assert r.gridCols > 0 && r.gridRows > 0;
    AxisWhole(p.area.width, r.gridCols, r.viewportCol, p.cellWidth, r.pixelWidth, r.sourceX, r.sourceWidth,
              p.imageWidth);
    AxisWhole(p.area.height, r.gridRows, r.viewportRow, p.cellHeight, r.pixelHeight, r.sourceY, r.sourceHeight,
              p.imageHeight);
  }
}
