/**
 The tiled compositor: `redraw` paints the cached frame of every stream into its grid cell, and a red
 border over the cells whose stream is in privacy state, cell after cell into one flat buffer.

 The reference definition is `Shown`: what a reader standing at pixel (x, y) computes with one division
 per axis, with no order of painting in it.
 */
module TiledView {
  import opened Arithmetic
  import opened Wrappers
  import opened GridLayout

  type Pixel = c: int | 0 <= c < 0x1_0000_0000
  type DisplayId = nat

  const RED: Pixel := 0x00FF_0000
  const PADDING: nat := 4
  const BORDER: nat := 4

  datatype DisplayState = Active | Privacy | Blanked

  datatype StreamEntry = StreamEntry(displayId: DisplayId, privacyState: DisplayState)

  /** A cached frame: its pixels, and the size it was announced with. */
  datatype Source = Source(pixels: seq<Pixel>, width: nat, height: nat)

  /** Everything one redraw depends on. */
  datatype Scene = Scene(streams: seq<StreamEntry>, sources: map<DisplayId, Source>,
                         indicator: bool, width: nat, height: nat) {
    predicate Fits() {
      GridLayout.Fits(|streams|, width, height, PADDING)
    }

    function Grid(): Layout
      requires Fits()
    {
      Compute(|streams|, width, height, PADDING)
    }

    /** The frame cached for stream `k`; a stream that has sent none has no pixels and the size of its cell. */
    function SourceOf(k: nat): Source
      requires Fits() && k < |streams|
    {
      var id := streams[k].displayId;
      if id in sources then sources[id] else Source([], Grid().cellWidth, Grid().cellHeight)
    }

    predicate Bordered(k: nat)
      requires k < |streams|
    {
      indicator && streams[k].privacyState == Privacy
    }
  }

  /** Where coordinate `c` of a cell side falls on a source side of length `extent`. */
  function Scale(c: nat, side: nat, extent: nat): nat
    requires c < side
  {
    c * extent / side
  }

  /** The flat position of the source pixel for (cx, cy) of a cell of size cw by ch. */
  function SampleIndex(source: Source, cw: nat, ch: nat, cx: nat, cy: nat): nat
    requires cx < cw && cy < ch
  {
    Scale(cy, ch, source.height) * source.width + Scale(cx, cw, source.width)
  }

  /** The source pixel shown at (cx, cy); black where the frame has none. */
  function Sample(source: Source, cw: nat, ch: nat, cx: nat, cy: nat): Pixel
    requires cx < cw && cy < ch
  {
    if source.pixels == [] then 0
    else
      var i := SampleIndex(source, cw, ch, cx, cy);
      if i < |source.pixels| then source.pixels[i] else 0
  }

  /** The border as painted for a cell: four strips, clipped as the source clips them. */
  predicate InBorder(a: Area, x: int, y: int) {
    || Area(a.x0, a.y0, a.x1, Min(a.y0 + BORDER, a.y1)).Contains(x, y)
    || Area(a.x0, SaturatingSub(a.y1, BORDER), a.x1, a.y1).Contains(x, y)
    || Area(a.x0, a.y0, Min(a.x0 + BORDER, a.x1), a.y1).Contains(x, y)
    || Area(SaturatingSub(a.x1, BORDER), a.y0, a.x1, a.y1).Contains(x, y)
  }

  function RowOf(p: nat, stride: nat): nat {
    if stride == 0 then 0 else p / stride
  }

  function ColOf(p: nat, stride: nat): nat {
    if stride == 0 then 0 else p % stride
  }

  /** Where stream `k` has its cell. */
  function CellOf(l: Layout, k: nat): Area
  {
    l.CellRect(RowOf(k, l.cols), ColOf(k, l.cols))
  }

  /** A cell together with the gutters above and to the left of it.  Slots tile the plane. */
  predicate InSlot(a: Area, padding: nat, x: int, y: int) {
    a.x0 - padding <= x < a.x1 && a.y0 - padding <= y < a.y1
  }

  function Quotient(n: nat, d: nat): nat
    requires d > 0
  {
    n / d
  }

  function RowMajor(row: nat, col: nat, cols: nat): nat {
    row * cols + col
  }

  /** The stream whose slot holds a pixel, found by division. */
  function SlotAt(l: Layout, n: nat, x: nat, y: nat): Option<nat>
    requires l.cellWidth + l.padding > 0 && l.cellHeight + l.padding > 0
  {
    var col := Quotient(x, l.cellWidth + l.padding);
    var row := Quotient(y, l.cellHeight + l.padding);
    if col < l.cols && RowMajor(row, col, l.cols) < n then Some(RowMajor(row, col, l.cols)) else None
  }

  /** What stream `k` shows at a pixel of its slot. */
  function ShownInSlot(s: Scene, k: nat, x: nat, y: nat): Pixel
    requires s.Fits() && k < |s.streams|
  {
    var a := CellOf(s.Grid(), k);
    if s.Bordered(k) && InBorder(a, x, y) then RED
    else if a.Contains(x, y) then
      Sample(s.SourceOf(k), a.x1 - a.x0, a.y1 - a.y0, x - a.x0, y - a.y0)
    else 0
  }

  /** The pixel on screen: a function of its position alone. */
  function Shown(s: Scene, x: nat, y: nat): Pixel
    requires s.Fits()
  {
    match SlotAt(s.Grid(), |s.streams|, x, y)
    case None => 0
    case Some(k) => ShownInSlot(s, k, x, y)
  }

  // ---- Geometry -------------------------------------------------------------------------------

  lemma {:induction false} DivisionFindsStride(x: nat, stride: nat, i: nat)
    requires stride > 0
    ensures x / stride == i <==> i * stride <= x < i * stride + stride
  {
    var q := x / stride;
    assert q * stride <= x < q * stride + stride;
    if i * stride <= x < i * stride + stride {
      DivUnique(x, stride, i);
    }
  }

  lemma {:induction false} RowMajorUnique(row: nat, col: nat, cols: nat, k: nat)
    requires col < cols
    ensures row * cols + col == k <==> row == k / cols && col == k % cols
  {
    if row * cols + col == k {
      DivUnique(k, cols, row);
    }
  }

  /** The slot found by division is the one and only slot that geometrically contains the pixel. */
  lemma {:induction false} SlotAtIsTheSlot(l: Layout, n: nat, k: nat, x: nat, y: nat)
    requires l.cols > 0 && l.cellWidth + l.padding > 0 && l.cellHeight + l.padding > 0
    requires k < n
    ensures SlotAt(l, n, x, y) == Some(k) <==> InSlot(CellOf(l, k), l.padding, x, y)
  {
    var w, h := l.cellWidth + l.padding, l.cellHeight + l.padding;
    DivisionFindsStride(x, w, k % l.cols);
    DivisionFindsStride(y, h, k / l.cols);
    if x / w < l.cols {
      RowMajorUnique(y / h, x / w, l.cols, k);
    }
  }

  /** The strips never leave the slot: a cell smaller than the border spills into its own gutters only. */
  lemma {:induction false} BorderStaysInSlot(a: Area, padding: nat, x: int, y: int)
    requires padding >= BORDER && a.x0 >= padding && a.y0 >= padding && a.x0 <= a.x1 && a.y0 <= a.y1
    requires InBorder(a, x, y)
    ensures InSlot(a, padding, x, y)
  {
  }

  /**
   The strips never leave the cell exactly when it is as large as the border on both sides, or has no extent at all.
   */
  lemma {:induction false} BorderInsideCellIff(a: Area)
    requires a.x0 >= BORDER && a.y0 >= BORDER && a.x0 <= a.x1 && a.y0 <= a.y1
    ensures (forall x, y :: InBorder(a, x, y) ==> a.Contains(x, y))
            <==> || (a.x1 - a.x0 >= BORDER && a.y1 - a.y0 >= BORDER)
                 || (a.x0 == a.x1 && a.y0 == a.y1)
  {
    if a.x1 - a.x0 < BORDER && a.y0 < a.y1 {
      assert InBorder(a, a.x1 - BORDER, a.y0) && !a.Contains(a.x1 - BORDER, a.y0);
    }
    if a.y1 - a.y0 < BORDER && a.x0 < a.x1 {
      assert InBorder(a, a.x0, a.y1 - BORDER) && !a.Contains(a.x0, a.y1 - BORDER);
    }
  }

  /** In a cell large enough, the border is the pixels nearer than `BORDER` to one of its edges. */
  lemma {:induction false} BorderIsTheRim(a: Area, x: int, y: int)
    requires a.x1 - a.x0 >= BORDER && a.y1 - a.y0 >= BORDER
    ensures InBorder(a, x, y)
            <==> && a.Contains(x, y)
                 && (x < a.x0 + BORDER || x >= a.x1 - BORDER || y < a.y0 + BORDER || y >= a.y1 - BORDER)
  {
  }

  /** Outside a cell the strips reach only from its far edges back over the near ones, where the cell is too small. */
  lemma {:induction false} BorderSpill(a: Area, x: int, y: int)
    requires a.x0 >= BORDER && a.y0 >= BORDER && a.x0 <= a.x1 && a.y0 <= a.y1 && !a.Contains(x, y)
    ensures InBorder(a, x, y)
            <==> || (a.x1 - 4 <= x < a.x0 && a.y0 <= y < a.y1)
                 || (a.y1 - 4 <= y < a.y0 && a.x0 <= x < a.x1)
  {
  }

  lemma {:induction false} ScaleBelow(c: nat, side: nat, extent: nat)
    requires c < side && extent > 0
    ensures Scale(c, side, extent) < extent
  {
    MulLe(c + 1, side, extent);
    var q := c * extent / side;
    assert q * side <= c * extent;
    if q >= extent {
      MulLe(extent, q, side);
    }
  }

  lemma {:induction false} RowMajorBelow(row: nat, col: nat, rows: nat, cols: nat)
    requires row < rows && col < cols
    ensures row * cols + col < cols * rows
  {
    MulLe(row + 1, rows, cols);
  }

  /** A frame that has all the pixels it announces is sampled inside itself, never past its end. */
  lemma {:induction false} SamplesStayInFrame(source: Source, cw: nat, ch: nat, cx: nat, cy: nat)
    requires cx < cw && cy < ch
    requires source.width > 0 && source.height > 0 && |source.pixels| == source.width * source.height
    ensures SampleIndex(source, cw, ch, cx, cy) < |source.pixels|
    ensures Sample(source, cw, ch, cx, cy) == source.pixels[SampleIndex(source, cw, ch, cx, cy)]
  {
    ScaleBelow(cx, cw, source.width);
    ScaleBelow(cy, ch, source.height);
    RowMajorBelow(Scale(cy, ch, source.height), Scale(cx, cw, source.width), source.height, source.width);
  }

  /** Scaling keeps the order of coordinates and their proportion to within one source pixel. */
  lemma {:induction false} ScaleIsProportional(c: nat, d: nat, side: nat, extent: nat)
    requires c <= d < side
    ensures Scale(c, side, extent) <= Scale(d, side, extent)
    ensures Scale(c, side, extent) * side <= c * extent < Scale(c, side, extent) * side + side
  {
    MulLe(c, d, extent);
    DivMonotone(c * extent, d * extent, side);
    DivBounds(c * extent, side);
  }

  /** A frame as large as its cell is copied pixel for pixel. */
  lemma {:induction false} SameSizeIsCopied(source: Source, cx: nat, cy: nat)
    requires cx < source.width && cy < source.height && |source.pixels| == source.width * source.height
    ensures cy * source.width + cx < |source.pixels|
    ensures Sample(source, source.width, source.height, cx, cy) == source.pixels[cy * source.width + cx]
  {
    DivUnique(cx * source.width, source.width, cx);
    DivUnique(cy * source.height, source.height, cy);
    RowMajorBelow(cy, cx, source.height, source.width);
  }

  /**
   The reader's view of `Shown`: a cell shows its own stream, and with cells as large as the border every gutter is
   black.
   */
  lemma {:induction false} ShownByCell(s: Scene, x: nat, y: nat)
    requires s.Fits()
    ensures forall k | 0 <= k < |s.streams| && CellOf(s.Grid(), k).Contains(x, y) ::
              Shown(s, x, y) == ShownInSlot(s, k, x, y)
    ensures && s.Grid().cellWidth >= BORDER && s.Grid().cellHeight >= BORDER
            && (forall k | 0 <= k < |s.streams| :: !CellOf(s.Grid(), k).Contains(x, y))
            ==> Shown(s, x, y) == 0
  {
    var l, n := s.Grid(), |s.streams|;
    forall k | 0 <= k < n && CellOf(l, k).Contains(x, y)
      ensures Shown(s, x, y) == ShownInSlot(s, k, x, y)
    {
      SlotAtIsTheSlot(l, n, k, x, y);
    }
    if SlotAt(l, n, x, y).Some? {
      var k := SlotAt(l, n, x, y).value;
      var a := CellOf(l, k);
      if l.cellWidth >= BORDER && l.cellHeight >= BORDER {
        BorderIsTheRim(a, x, y);
      }
    }
  }

  // ---- Flat buffer ----------------------------------------------------------------------------

  lemma {:induction false} FlatIndex(p: nat, stride: nat, x: nat, y: nat)
    requires x < stride
    ensures p == y * stride + x <==> ColOf(p, stride) == x && RowOf(p, stride) == y
  {
    RowMajorUnique(y, x, stride, p);
    assert p == p / stride * stride + p % stride;
  }

  /** Which pixels a row-by-row sweep of an area has reached, standing before column `x` of row `y`. */
  predicate Swept(a: Area, x: int, y: int, px: int, py: int) {
    a.Contains(px, py) && (py < y || (py == y && px < x))
  }

  /** One assignment of a sweep: the pixel at (x, y) joins the swept ones, no other does. */
  lemma {:induction false} SweepOneMore(a: Area, stride: nat, x: nat, y: nat, p: nat)
    requires a.Contains(x, y) && a.x1 <= stride
    ensures Swept(a, x + 1, y, ColOf(p, stride), RowOf(p, stride))
            <==> Swept(a, x, y, ColOf(p, stride), RowOf(p, stride)) || p == y * stride + x
    ensures p == y * stride + x ==> ColOf(p, stride) == x && RowOf(p, stride) == y
  {
    FlatIndex(p, stride, x, y);
  }

  lemma {:induction false} InBuffer(a: Area, stride: nat, x: nat, y: nat, length: nat)
    requires a.Contains(x, y) && a.x1 <= stride && a.y1 * stride <= length
    ensures y * stride + x < length
  {
    MulLe(y + 1, a.y1, stride);
  }

  /** What a cell's sweep leaves at flat index `p`, standing before column `x` of row `y`. */
  function CellSwept(start: Pixel, stride: nat, a: Area, source: Source, x: nat, y: nat, p: nat): Pixel {
    var px, py := ColOf(p, stride), RowOf(p, stride);
    if Swept(a, x, y, px, py) then Sample(source, a.x1 - a.x0, a.y1 - a.y0, px - a.x0, py - a.y0) else start
  }

  lemma {:induction false} CellSweptOneMore(start: Pixel, stride: nat, a: Area, source: Source, x: nat, y: nat, p: nat)
    requires a.Contains(x, y) && a.x1 <= stride
    ensures CellSwept(start, stride, a, source, x + 1, y, p)
            == if p == y * stride + x then Sample(source, a.x1 - a.x0, a.y1 - a.y0, x - a.x0, y - a.y0)
               else CellSwept(start, stride, a, source, x, y, p)
  {
    SweepOneMore(a, stride, x, y, p);
  }

  /** Copies the scaled frame into a cell that lies inside the buffer; nothing else changes. */
  method PaintCell(buffer: array<Pixel>, stride: nat, a: Area, source: Source)
    requires a.x0 <= a.x1 <= stride && a.y0 <= a.y1 && a.y1 * stride <= buffer.Length
    modifies buffer
    ensures forall p :: 0 <= p < buffer.Length ==>
              buffer[p] == var x, y := ColOf(p, stride), RowOf(p, stride);
                           if a.Contains(x, y) then Sample(source, a.x1 - a.x0, a.y1 - a.y0, x - a.x0, y - a.y0)
                           else old(buffer[p])
  {
    var cw, ch := a.x1 - a.x0, a.y1 - a.y0;
    for cy := 0 to ch
      invariant forall p :: 0 <= p < buffer.Length ==>
                  buffer[p] == CellSwept(old(buffer[p]), stride, a, source, a.x0, a.y0 + cy, p)
    {
      for cx := 0 to cw
        invariant forall p :: 0 <= p < buffer.Length ==>
                    buffer[p] == CellSwept(old(buffer[p]), stride, a, source, a.x0 + cx, a.y0 + cy, p)
      {
        var pixel := Sample(source, cw, ch, cx, cy);
        var i := (a.y0 + cy) * stride + (a.x0 + cx);
        InBuffer(a, stride, a.x0 + cx, a.y0 + cy, buffer.Length);
        forall p | 0 <= p < buffer.Length {
          CellSweptOneMore(old(buffer[p]), stride, a, source, a.x0 + cx, a.y0 + cy, p);
        }
        if i < buffer.Length {
          buffer[i] := pixel;
        }
      }
    }
  }

  method PaintRed(buffer: array<Pixel>, stride: nat, a: Area)
    requires a.x0 <= a.x1 <= stride && a.y0 <= a.y1 && a.y1 * stride <= buffer.Length
    modifies buffer
    ensures forall p :: 0 <= p < buffer.Length ==>
              buffer[p] == if a.Contains(ColOf(p, stride), RowOf(p, stride)) then RED else old(buffer[p])
  {
    for y := a.y0 to a.y1
      invariant forall p :: 0 <= p < buffer.Length ==>
                  buffer[p] == if Swept(a, a.x0, y, ColOf(p, stride), RowOf(p, stride)) then RED else old(buffer[p])
    {
      for x := a.x0 to a.x1
        invariant forall p :: 0 <= p < buffer.Length ==>
                    buffer[p] == if Swept(a, x, y, ColOf(p, stride), RowOf(p, stride)) then RED else old(buffer[p])
      {
        InBuffer(a, stride, x, y, buffer.Length);
        forall p: nat {
          SweepOneMore(a, stride, x, y, p);
        }
        if y * stride + x < buffer.Length {
          buffer[y * stride + x] := RED;
        }
      }
    }
  }

  /** The four strips of a cell's border, top, bottom, left and right. */
  method DrawRedBorder(buffer: array<Pixel>, stride: nat, a: Area)
    requires a.x0 <= a.x1 <= stride && a.y0 <= a.y1 && a.y1 * stride <= buffer.Length
    requires a.x0 >= BORDER && a.y0 >= BORDER
    modifies buffer
    ensures forall p :: 0 <= p < buffer.Length ==>
              buffer[p] == if InBorder(a, ColOf(p, stride), RowOf(p, stride)) then RED else old(buffer[p])
  {
    MulLe(Min(a.y0 + BORDER, a.y1), a.y1, stride);
    PaintRed(buffer, stride, Area(a.x0, a.y0, a.x1, Min(a.y0 + BORDER, a.y1)));
    PaintRed(buffer, stride, Area(a.x0, SaturatingSub(a.y1, BORDER), a.x1, a.y1));
    PaintRed(buffer, stride, Area(a.x0, a.y0, Min(a.x0 + BORDER, a.x1), a.y1));
    PaintRed(buffer, stride, Area(SaturatingSub(a.x1, BORDER), a.y0, a.x1, a.y1));
  }

  /** The picture when the first `n` streams have been painted. */
  function ShownUpTo(s: Scene, n: nat, x: nat, y: nat): Pixel
    requires s.Fits()
  {
    match SlotAt(s.Grid(), |s.streams|, x, y)
    case None => 0
    case Some(k) => if k < n then ShownInSlot(s, k, x, y) else 0
  }

  /** Nothing of cell `k` and its border lies outside its slot. */
  lemma {:induction false} CellStaysInSlot(s: Scene, k: nat, x: nat, y: nat)
    requires s.Fits() && k < |s.streams|
    ensures var a := CellOf(s.Grid(), k);
            InBorder(a, x, y) || a.Contains(x, y) ==> InSlot(a, PADDING, x, y)
  {
    var l, a := s.Grid(), CellOf(s.Grid(), k);
    RectClearOfEdges(l, RowOf(k, l.cols), ColOf(k, l.cols));
    if InBorder(a, x, y) {
      BorderStaysInSlot(a, PADDING, x, y);
    }
  }

  lemma {:induction false} RectClearOfEdges(l: Layout, row: nat, col: nat)
    ensures var a := l.CellRect(row, col); l.padding <= a.x0 <= a.x1 && l.padding <= a.y0 <= a.y1
  {
  }

  /**
   Painting stream `k` puts its cell and border into the picture and changes nothing outside its slot.  Slots are
   disjoint, so no later cell overwrites an earlier one, however small the cells are.
   */
  lemma {:induction false} OneCellMore(s: Scene, k: nat, x: nat, y: nat)
    requires s.Fits() && k < |s.streams|
    ensures var a := CellOf(s.Grid(), k);
            ShownUpTo(s, k + 1, x, y)
            == if s.Bordered(k) && InBorder(a, x, y) then RED
               else if a.Contains(x, y) then
                 Sample(s.SourceOf(k), a.x1 - a.x0, a.y1 - a.y0, x - a.x0, y - a.y0)
               else ShownUpTo(s, k, x, y)
    ensures var a := CellOf(s.Grid(), k);
            (s.Bordered(k) && InBorder(a, x, y)) || a.Contains(x, y) ==>
              InSlot(a, PADDING, x, y) && ShownUpTo(s, k, x, y) == 0
    ensures ShownUpTo(s, k + 1, x, y) != ShownUpTo(s, k, x, y) ==> SlotAt(s.Grid(), |s.streams|, x, y) == Some(k)
  {
    var a := CellOf(s.Grid(), k);
    SlotAtIsTheSlot(s.Grid(), |s.streams|, k, x, y);
    CellStaysInSlot(s, k, x, y);
  }

  /** The area lies in the window, clear of its top and left edges, and all its rows in the window's buffer. */
  predicate FitsBuffer(a: Area, width: nat, height: nat) {
    PADDING <= a.x0 <= a.x1 <= width && PADDING <= a.y0 <= a.y1 && RowsFit(a.y1, width, height)
  }

  /** `y` rows of the window lie in its buffer. */
  predicate RowsFit(y: nat, width: nat, height: nat) {
    y * width <= width * height
  }

  lemma {:induction false} CellRectFitsBuffer(s: Scene, row: nat, col: nat)
    requires s.Fits() && s.streams != [] && row < Rows(|s.streams|) && col < Columns(|s.streams|)
    ensures FitsBuffer(s.Grid().CellRect(row, col), s.width, s.height)
  {
    CellInsideWindow(|s.streams|, s.width, s.height, PADDING, row, col);
    HigherRowsFit(s.Grid().CellRect(row, col).y1, s.width, s.height);
  }

  /** Row by row, stream `k` has a place in the grid. */
  lemma {:induction false} StreamHasPlace(n: nat, k: nat) returns (row: nat, col: nat)
    requires k < n
    ensures row == RowOf(k, Columns(n)) < Rows(n) && col == ColOf(k, Columns(n)) < Columns(n)
  {
    StreamHasCell(n, k);
    row, col := RowOf(k, Columns(n)), ColOf(k, Columns(n));
  }

  lemma {:induction false} CellFitsBuffer(s: Scene, k: nat)
    requires s.Fits() && k < |s.streams|
    ensures FitsBuffer(CellOf(s.Grid(), k), s.width, s.height)
  {
    var row, col := StreamHasPlace(|s.streams|, k);
    CellRectFitsBuffer(s, row, col);
  }

  lemma {:induction false} HigherRowsFit(y: nat, width: nat, height: nat)
    requires y <= height
    ensures RowsFit(y, width, height)
  {
    MulLe(y, height, width);
  }

  /** One round of the redraw loop, on the buffer the earlier rounds left. */
  method PaintStream(back: array<Pixel>, s: Scene, k: nat)
    requires s.Fits() && k < |s.streams|
    requires back.Length == s.width * s.height
    requires forall p :: 0 <= p < back.Length ==> back[p] == ShownUpTo(s, k, ColOf(p, s.width), RowOf(p, s.width))
    modifies back
    ensures forall p :: 0 <= p < back.Length ==> back[p] == ShownUpTo(s, k + 1, ColOf(p, s.width), RowOf(p, s.width))
  {
    var a := CellOf(s.Grid(), k);
    CellFitsBuffer(s, k);
    forall p: nat {
      OneCellMore(s, k, ColOf(p, s.width), RowOf(p, s.width));
    }
    PaintCell(back, s.width, a, s.SourceOf(k));
    if s.Bordered(k) {
      DrawRedBorder(back, s.width, a);
    }
  }

  /** Paints every cell in turn, on black; the result is the reference picture, pixel by pixel. */
  method Composite(s: Scene) returns (back: array<Pixel>)
    requires s.Fits()
    ensures fresh(back) && back.Length == s.width * s.height
    ensures forall p :: 0 <= p < back.Length ==> back[p] == Shown(s, ColOf(p, s.width), RowOf(p, s.width))
  {
    back := new Pixel[s.width * s.height](_ => 0);
    for k := 0 to |s.streams|
      invariant back.Length == s.width * s.height
      invariant forall p :: 0 <= p < back.Length ==> back[p] == ShownUpTo(s, k, ColOf(p, s.width), RowOf(p, s.width))
    {
      PaintStream(back, s, k);
    }
  }

  // ---- Down to the source pixel ---------------------------------------------------------------

  /** The buffer holds the reference picture. */
  ghost predicate Composited(s: Scene, buffer: seq<Pixel>)
    requires s.Fits()
  {
    && |buffer| == s.width * s.height
    && forall p :: 0 <= p < |buffer| ==> buffer[p] == Shown(s, ColOf(p, s.width), RowOf(p, s.width))
  }

  /** Inside a cell, of whatever size, the strips are the pixels nearer than four to an edge. */
  lemma {:induction false} BorderInCell(a: Area, dx: nat, dy: nat)
    requires dx < a.x1 - a.x0 && dy < a.y1 - a.y0
    ensures InBorder(a, a.x0 + dx, a.y0 + dy)
            <==> dx < 4 || dx + 4 >= a.x1 - a.x0 || dy < 4 || dy + 4 >= a.y1 - a.y0
  {
  }

  /** Pixel (dx, dy) of stream `k`'s cell: where it lies in the window, and that its slot is stream `k`'s. */
  lemma {:induction false} PixelOfCell(s: Scene, k: nat, dx: nat, dy: nat)
    requires s.Fits() && k < |s.streams|
    requires var a := CellOf(s.Grid(), k); dx < a.x1 - a.x0 && dy < a.y1 - a.y0
    ensures var a := CellOf(s.Grid(), k);
            && a.x0 + dx < s.width && RowMajor(a.y0 + dy, a.x0 + dx, s.width) < s.width * s.height
            && Shown(s, a.x0 + dx, a.y0 + dy) == ShownInSlot(s, k, a.x0 + dx, a.y0 + dy)
  {
    var a := CellOf(s.Grid(), k);
    CellFitsBuffer(s, k);
    InBuffer(a, s.width, a.x0 + dx, a.y0 + dy, s.width * s.height);
    CellStaysInSlot(s, k, a.x0 + dx, a.y0 + dy);
    SlotAtIsTheSlot(s.Grid(), |s.streams|, k, a.x0 + dx, a.y0 + dy);
  }

  /** Where the cells lie, in plain arithmetic: row by row, as large as the window allows, four pixels apart. */
  lemma {:induction false} CellsInTheWindow(s: Scene, k: nat)
    requires s.Fits() && k < |s.streams|
    ensures var cols, rows, a := Columns(|s.streams|), Rows(|s.streams|), CellOf(s.Grid(), k);
            && s.Grid().cols == cols && s.Grid().rows == rows && s.Grid().padding == 4
            && 4 * (cols + 1) <= s.width && 4 * (rows + 1) <= s.height
            && a.x1 - a.x0 == (s.width - 4 * (cols + 1)) / cols
            && a.y1 - a.y0 == (s.height - 4 * (rows + 1)) / rows
            && a.x0 == 4 + k % cols * (a.x1 - a.x0 + 4)
            && a.y0 == 4 + k / cols * (a.y1 - a.y0 + 4)
  {
  }

  /** The index of the pixel of a frame that belongs at (dx, dy) of a cell of size `cw` by `ch`. */
  function FrameIndex(frame: Source, cw: nat, ch: nat, dx: nat, dy: nat): int
    requires dx < cw && dy < ch
  {
    (dy * frame.height / ch) * frame.width + dx * frame.width / cw
  }

  lemma {:induction false} FrameIndexIsSampled(frame: Source, cw: nat, ch: nat, dx: nat, dy: nat)
    requires dx < cw && dy < ch
    ensures SampleIndex(frame, cw, ch, dx, dy) == FrameIndex(frame, cw, ch, dx, dy)
  {
  }

  /** The pixel of a cached frame, scaled down or up to the cell; black where the frame lacks it. */
  ghost predicate ShowsFrame(pixel: Pixel, frame: Source, cw: nat, ch: nat, dx: nat, dy: nat)
    requires dx < cw && dy < ch
  {
    var i := FrameIndex(frame, cw, ch, dx, dy);
    && i >= 0
    && pixel == (if i < |frame.pixels| then frame.pixels[i] else 0)
    && (frame.width > 0 && frame.height > 0 && |frame.pixels| == frame.width * frame.height ==> i < |frame.pixels|)
  }

  lemma {:induction false} SampleShowsFrame(frame: Source, cw: nat, ch: nat, dx: nat, dy: nat)
    requires dx < cw && dy < ch
    ensures ShowsFrame(Sample(frame, cw, ch, dx, dy), frame, cw, ch, dx, dy)
  {
    FrameIndexIsSampled(frame, cw, ch, dx, dy);
    if frame.width > 0 && frame.height > 0 && |frame.pixels| == frame.width * frame.height {
      SamplesStayInFrame(frame, cw, ch, dx, dy);
    }
  }

  lemma {:induction false} SlotShowsItsStream(s: Scene, k: nat, dx: nat, dy: nat)
    requires s.Fits() && k < |s.streams|
    requires var a := CellOf(s.Grid(), k); dx < a.x1 - a.x0 && dy < a.y1 - a.y0
    ensures var a, e := CellOf(s.Grid(), k), s.streams[k];
            var cw, ch, pixel := a.x1 - a.x0, a.y1 - a.y0, ShownInSlot(s, k, a.x0 + dx, a.y0 + dy);
            if s.indicator && e.privacyState == Privacy && (dx < 4 || dx + 4 >= cw || dy < 4 || dy + 4 >= ch)
            then pixel == 0x00FF_0000
            else if e.displayId in s.sources then ShowsFrame(pixel, s.sources[e.displayId], cw, ch, dx, dy)
            else pixel == 0
  {
    var a := CellOf(s.Grid(), k);
    BorderInCell(a, dx, dy);
    SampleShowsFrame(s.SourceOf(k), a.x1 - a.x0, a.y1 - a.y0, dx, dy);
  }

  lemma {:induction false} BufferAt(s: Scene, buffer: seq<Pixel>, x: nat, y: nat)
    requires s.Fits() && Composited(s, buffer) && x < s.width && RowMajor(y, x, s.width) < |buffer|
    ensures buffer[RowMajor(y, x, s.width)] == Shown(s, x, y)
  {
    FlatIndex(RowMajor(y, x, s.width), s.width, x, y);
  }

  /**
   The window as its user sees it: in the cell of the `k`-th stream, pixel (dx, dy) is the scaled pixel of the frame
   cached for that stream's display, black if there is none, and red at the rim exactly when the indicator is on and
   that stream is in privacy state.
   */
  lemma {:induction false} CellShowsItsStream(s: Scene, buffer: seq<Pixel>, k: nat, dx: nat, dy: nat)
    requires s.Fits() && k < |s.streams| && Composited(s, buffer)
    requires var a := CellOf(s.Grid(), k); dx < a.x1 - a.x0 && dy < a.y1 - a.y0
    ensures var a, e := CellOf(s.Grid(), k), s.streams[k];
            var cw, ch, p := a.x1 - a.x0, a.y1 - a.y0, RowMajor(a.y0 + dy, a.x0 + dx, s.width);
            && p < |buffer|
            && (if s.indicator && e.privacyState == Privacy && (dx < 4 || dx + 4 >= cw || dy < 4 || dy + 4 >= ch)
                then buffer[p] == 0x00FF_0000
                else if e.displayId in s.sources then ShowsFrame(buffer[p], s.sources[e.displayId], cw, ch, dx, dy)
                else buffer[p] == 0)
  {
    var a := CellOf(s.Grid(), k);
    PixelOfCell(s, k, dx, dy);
    BufferAt(s, buffer, a.x0 + dx, a.y0 + dy);
    SlotShowsItsStream(s, k, dx, dy);
  }

  /** Outside all cells everything is black, but for the strips of a bordered stream that its cell is too small for. */
  lemma {:induction false} GutterIsBlack(s: Scene, buffer: seq<Pixel>, p: nat)
    requires s.Fits() && Composited(s, buffer) && p < |buffer|
    requires forall k :: 0 <= k < |s.streams| ==>
               !CellOf(s.Grid(), k).Contains(ColOf(p, s.width), RowOf(p, s.width))
    ensures buffer[p] == if exists k :: 0 <= k < |s.streams| && s.indicator && s.streams[k].privacyState == Privacy
                                        && InBorder(CellOf(s.Grid(), k), ColOf(p, s.width), RowOf(p, s.width))
                         then 0x00FF_0000 else 0
  {
    var x, y := ColOf(p, s.width), RowOf(p, s.width);
    if k :| 0 <= k < |s.streams| && s.indicator && s.streams[k].privacyState == Privacy
            && InBorder(CellOf(s.Grid(), k), x, y) {
      CellStaysInSlot(s, k, x, y);
      SlotAtIsTheSlot(s.Grid(), |s.streams|, k, x, y);
    }
  }

  /** The window's cache of frames and the layout it last used. */
  class View {
    var gridLayout: Layout
    var streamBuffers: map<DisplayId, seq<Pixel>>
    var streamSizes: map<DisplayId, (nat, nat)>

    /** A frame is cached together with its size. */
    predicate Valid()
      reads `streamBuffers, `streamSizes
    {
      streamBuffers.Keys == streamSizes.Keys
    }

    function Sources(): map<DisplayId, Source>
      reads `streamBuffers, `streamSizes
      requires Valid()
    {
      map id | id in streamBuffers :: Source(streamBuffers[id], streamSizes[id].0, streamSizes[id].1)
    }

    constructor ()
      ensures Valid() && Sources() == map[]
    {
      gridLayout := Layout(1, 1, 0, 0, PADDING);
      streamBuffers := map[];
      streamSizes := map[];
    }

    /** Caches a frame, replacing the stream's previous one, and redraws. */
    method RenderFrame(id: DisplayId, frame: seq<Pixel>, width: nat, height: nat,
                       streams: seq<StreamEntry>, indicator: bool, winW: nat, winH: nat)
      returns (back: array<Pixel>)
      requires Valid() && Scene(streams, map[], indicator, winW, winH).Fits()
      modifies this
      ensures Valid() && Sources() == old(Sources())[id := Source(frame, width, height)]
      ensures var s := Scene(streams, Sources(), indicator, winW, winH);
              && gridLayout == s.Grid() && back.Length == winW * winH
              && forall p :: 0 <= p < back.Length ==> back[p] == Shown(s, ColOf(p, winW), RowOf(p, winW))
    {
      streamBuffers := streamBuffers[id := frame];
      streamSizes := streamSizes[id := (width, height)];
      back := Redraw(streams, indicator, winW, winH);
    }

    /** Lays the grid out for the window's present size and composites the cached frames. */
    method Redraw(streams: seq<StreamEntry>, indicator: bool, winW: nat, winH: nat)
      returns (back: array<Pixel>)
      requires Valid() && Scene(streams, map[], indicator, winW, winH).Fits()
      modifies this`gridLayout
      ensures Sources() == old(Sources()) && fresh(back)
      ensures var s := Scene(streams, Sources(), indicator, winW, winH);
              && gridLayout == s.Grid() && back.Length == winW * winH
              && forall p :: 0 <= p < back.Length ==> back[p] == Shown(s, ColOf(p, winW), RowOf(p, winW))
    {
      var s := Scene(streams, Sources(), indicator, winW, winH);
      gridLayout := s.Grid();
      back := Composite(s);
    }
  }
}
