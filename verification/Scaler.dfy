/** Where a frame goes in the output image: the letterboxing scaler of the virtual camera, the fitting scaler
    of the preview and the plain one.  The ratios of the sources are exact rationals here, and a cast to int
    is the floor. */
module ScalerDims {
  type Positive = x: int | 0 < x witness 1

  datatype Dims = Dims(width: nat, height: nat, containerWidth: nat, containerHeight: nat,
                       xOffset: nat, yOffset: nat, hasPadding: bool)

  /** The subclasses of the frame scaler and the box each was built for. */
  datatype Kind = DirectShow(width: Positive, height: Positive)
                | GuiPreview(width: Positive, height: Positive)
                | OneToOne

  /** srcRatio > containerRatio. */
  predicate Wider(cw: Positive, ch: Positive, w: Positive, h: Positive) { w * ch > cw * h }

  function FitWidth(cw: Positive, ch: Positive, w: Positive, h: Positive): nat {
    if Wider(cw, ch, w, h) then cw else Floor(ch * w, h)
  }

  function FitHeight(cw: Positive, ch: Positive, w: Positive, h: Positive): nat {
    if Wider(cw, ch, w, h) then Floor(cw * h, w) else ch
  }

  function Floor(a: int, b: Positive): (q: nat)
    requires 0 <= a
    ensures q * b <= a < (q + 1) * b
  {
    FloorBounds(a, b);
    a / b
  }

  lemma FloorBounds(a: int, b: Positive)
    requires 0 <= a
    ensures 0 <= a / b && a / b * b <= a < (a / b + 1) * b
  {
    assert a == a / b * b + a % b;
  }

  function CalculateTargetDimensions(kind: Kind, w: Positive, h: Positive): Dims {
    match kind
    case DirectShow(cw, ch) =>
      var pw, ph := FitWidth(cw, ch, w, h), FitHeight(cw, ch, w, h);
      FitsTheBox(cw, ch, w, h);
      Dims(pw, ph, cw, ch, (cw - pw) / 2, (ch - ph) / 2, true)
    case GuiPreview(cw, ch) =>
      var pw, ph := FitWidth(cw, ch, w, h), FitHeight(cw, ch, w, h);
      Dims(pw, ph, pw, ph, 0, 0, false)
    case OneToOne => Dims(w, h, w, h, 0, 0, false)
  }

  lemma ProductOrder(a: int, b: int, c: Positive)
    ensures a * c < b * c <==> a < b
    ensures a * c <= b * c <==> a <= b
  {
  }

  /** The picture lies in the box, touches one full side, and on the other is the floor of the exact size:
      within one pixel of the source's aspect. */
  lemma FitsTheBox(cw: Positive, ch: Positive, w: Positive, h: Positive)
    ensures var pw, ph := FitWidth(cw, ch, w, h), FitHeight(cw, ch, w, h);
      && pw <= cw && ph <= ch
      && (pw == cw || ph == ch)
      && (if pw == cw then ph * w <= cw * h < (ph + 1) * w else pw * h <= ch * w < (pw + 1) * h)
  {
    var pw, ph := FitWidth(cw, ch, w, h), FitHeight(cw, ch, w, h);
    if Wider(cw, ch, w, h) {
      assert ph * w < ch * w;
      ProductOrder(ph, ch, w);
    } else {
      assert pw * h <= cw * h;
      ProductOrder(pw, cw, h);
      if pw == cw { assert ch * w == cw * h; }
    }
  }

  /** Every box of exactly the source's aspect that fits the container fits in the picture: nothing larger
      could have been shown undistorted. */
  lemma PictureIsLargest(cw: Positive, ch: Positive, w: Positive, h: Positive, a: nat, b: nat)
    requires a <= cw && b <= ch && a * h == b * w
    ensures a <= FitWidth(cw, ch, w, h) && b <= FitHeight(cw, ch, w, h)
  {
    var pw, ph := FitWidth(cw, ch, w, h), FitHeight(cw, ch, w, h);
    if Wider(cw, ch, w, h) {
      ProductOrder(a, cw, h);
      assert b * w < (ph + 1) * w;
      ProductOrder(b, ph + 1, w);
    } else {
      ProductOrder(b, ch, w);
      assert a * h < (pw + 1) * h;
      ProductOrder(a, pw + 1, h);
    }
  }

  /** Only the source's aspect matters, not its resolution. */
  lemma OnlyTheAspectMatters(cw: Positive, ch: Positive, w: Positive, h: Positive, k: Positive)
    requires 0 < k * w && 0 < k * h
    ensures FitWidth(cw, ch, k * w, k * h) == FitWidth(cw, ch, w, h)
    ensures FitHeight(cw, ch, k * w, k * h) == FitHeight(cw, ch, w, h)
  {
    assert (k * w) * ch == (w * ch) * k && cw * (k * h) == (cw * h) * k;
    ProductOrder(cw * h, w * ch, k);
    if Wider(cw, ch, w, h) {
      FloorScaled(cw * h, w, k);
    } else {
      assert ch * (k * w) == (ch * w) * k;
      FloorScaled(ch * w, h, k);
    }
  }

  lemma SwapFactors(x: int, y: int, z: int)
    ensures x * (y * z) == (x * z) * y
  {
  }

  lemma FloorScaled(a: nat, b: Positive, k: Positive)
    requires 0 < k * b && 0 <= a * k
    ensures Floor(a * k, k * b) == Floor(a, b)
  {
    hide Floor;
    var q := Floor(a, b);
    var p := Floor(a * k, k * b);
    SwapFactors(p, k, b);
    SwapFactors(p + 1, k, b);
    ProductOrder(p * b, a, k);
    ProductOrder(a, (p + 1) * b, k);
    assert p * b < (q + 1) * b && q * b < (p + 1) * b;
    ProductOrder(p, q + 1, b);
    ProductOrder(q, p + 1, b);
  }

  /** The picture lies in its container, centred to within a pixel; without padding it is the container; the
      preview's image is the camera's picture without the bars. */
  predicate Placed(d: Dims) {
    && d.xOffset + d.width <= d.containerWidth
    && d.yOffset + d.height <= d.containerHeight
    && 0 <= d.containerWidth - d.width - 2 * d.xOffset <= 1
    && 0 <= d.containerHeight - d.height - 2 * d.yOffset <= 1
    && (!d.hasPadding ==> d.width == d.containerWidth && d.height == d.containerHeight)
  }

  lemma PictureIsPlaced(kind: Kind, w: Positive, h: Positive)
    ensures Placed(CalculateTargetDimensions(kind, w, h))
  {
    hide FitWidth, FitHeight;
    if !kind.OneToOne? { FitsTheBox(kind.width, kind.height, w, h); }
  }

  /** What each scaler makes of a source, said of the dimensions themselves. The virtual camera's image is always
      its own container, with bars where the picture leaves room; the preview's is the picture; the plain one keeps
      the source. */
  lemma ContainerOf(kind: Kind, w: Positive, h: Positive)
    ensures var d := CalculateTargetDimensions(kind, w, h);
      match kind
      case DirectShow(cw, ch) => d.containerWidth == cw && d.containerHeight == ch && d.hasPadding
      case GuiPreview(cw, ch) => d.containerWidth == d.width <= cw && d.containerHeight == d.height <= ch
      case OneToOne => d == Dims(w, h, w, h, 0, 0, false)
  {
    hide FitWidth, FitHeight;
    if kind.GuiPreview? { FitsTheBox(kind.width, kind.height, w, h); }
  }

  /** THE PICTURE in a box of cw by ch: inside it, with one side full and the other within one pixel of the source's
      aspect, and no box of exactly that aspect that fits is larger. */
  lemma PictureIsBest(kind: Kind, w: Positive, h: Positive)
    requires !kind.OneToOne?
    ensures var d, cw, ch := CalculateTargetDimensions(kind, w, h), kind.width, kind.height;
      && d.width <= cw && d.height <= ch
      && (d.width == cw || d.height == ch)
      && (d.width == cw ==> d.height * w <= cw * h < (d.height + 1) * w)
      && (d.width != cw ==> d.width * h <= ch * w < (d.width + 1) * h)
      && forall a: nat, b: nat | a <= cw && b <= ch && a * h == b * w :: a <= d.width && b <= d.height
  {
    hide FitWidth, FitHeight;
    var cw, ch := kind.width, kind.height;
    FitsTheBox(cw, ch, w, h);
    forall a: nat, b: nat | a <= cw && b <= ch && a * h == b * w
      ensures a <= FitWidth(cw, ch, w, h) && b <= FitHeight(cw, ch, w, h)
    {
      PictureIsLargest(cw, ch, w, h, a, b);
    }
  }

  /** A source of the same aspect and another resolution is shown in the same place. */
  lemma ResolutionDoesNotMatter(kind: Kind, w: Positive, h: Positive, k: Positive)
    requires !kind.OneToOne? && 0 < k * w && 0 < k * h
    ensures CalculateTargetDimensions(kind, k * w, k * h) == CalculateTargetDimensions(kind, w, h)
  {
    hide FitWidth, FitHeight;
    OnlyTheAspectMatters(kind.width, kind.height, w, h, k);
  }

  lemma PreviewIsPictureWithoutBars(cw: Positive, ch: Positive, w: Positive, h: Positive)
    ensures var camera := CalculateTargetDimensions(DirectShow(cw, ch), w, h);
      CalculateTargetDimensions(GuiPreview(cw, ch), w, h)
        == camera.(containerWidth := camera.width, containerHeight := camera.height,
                   xOffset := 0, yOffset := 0, hasPadding := false)
  {
  }
}

/** The scaler's cached context and output buffer over any sequence of frames. */
module FrameScalers {
  import opened Bytes
  import opened ScalerDims

  const BUFFER_PADDING: nat := 64

  /** What a scaling context was made for. */
  datatype Context = Context(srcWidth: int, srcHeight: int, srcFormat: int, dstWidth: nat, dstHeight: nat)

  datatype Source = Source(width: int, height: int, format: int)

  /** What the foreign scaler writes at each (row, byte in row) of the picture; None where it writes nothing. */
  type Picture = (nat, nat) -> Option<byte>

  function Stride(d: Dims, bpp: nat): nat { d.containerWidth * bpp }

  function Visible(d: Dims, bpp: nat): nat { d.containerHeight * Stride(d, bpp) }

  /** Rows are rounded up to 32 bytes for the allocation, though not in the image. */
  function AlignedStride(d: Dims, bpp: nat): nat { (Stride(d, bpp) + 31) / 32 * 32 }

  function NeededSize(d: Dims, bpp: nat): nat {
    ProductIsNat(d.containerHeight, AlignedStride(d, bpp));
    d.containerHeight * AlignedStride(d, bpp) + BUFFER_PADDING
  }

  lemma ProductIsNat(a: nat, b: nat) ensures 0 <= a * b {}

  /** Byte i of the image belongs to the picture rectangle. */
  predicate InPicture(d: Dims, bpp: nat, i: nat) {
    var s := Stride(d, bpp);
    && s > 0
    && d.yOffset <= i / s < d.yOffset + d.height
    && d.xOffset * bpp <= i % s < (d.xOffset + d.width) * bpp
  }

  /** The byte the picture has for byte i of the image. */
  function PictureAt(d: Dims, bpp: nat, p: Picture, i: nat): Option<byte>
    requires InPicture(d, bpp, i)
  {
    p(i / Stride(d, bpp) - d.yOffset, i % Stride(d, bpp) - d.xOffset * bpp)
  }

  /** Byte i is one that a scaler may write that is given a start, a stride, a row count and a row length. */
  predicate InSlice(start: nat, stride: nat, rows: nat, rowBytes: nat, i: nat) {
    i >= start && stride > 0 && (i - start) / stride < rows && (i - start) % stride < rowBytes
  }

  lemma DivMod(q: int, s: Positive, r: int)
    requires 0 <= r < s
    ensures (q * s + r) / s == q && (q * s + r) % s == r
  {
    var x := q * s + r;
    var k := x / s - q;
    assert x == x / s * s + x % s;
    assert k * s == r - x % s;
    ProductOrder(k, 1, s);
    ProductOrder(-1, k, s);
  }

  function Start(d: Dims, bpp: nat): nat {
    ProductIsNat(d.yOffset, Stride(d, bpp));
    ProductIsNat(d.xOffset, bpp);
    d.yOffset * Stride(d, bpp) + d.xOffset * bpp
  }

  lemma RowFits(d: Dims, bpp: nat)
    requires Placed(d)
    ensures d.xOffset * bpp + d.width * bpp == (d.xOffset + d.width) * bpp <= Stride(d, bpp)
  {
  }

  /** The scaler's pointer arithmetic addresses exactly the picture rectangle, each cell at its place. */
  lemma SliceIsRectangle(d: Dims, bpp: nat, i: nat)
    requires Placed(d)
    ensures InSlice(Start(d, bpp), Stride(d, bpp), d.height, d.width * bpp, i) <==> InPicture(d, bpp, i)
    ensures InPicture(d, bpp, i) ==>
      (var s := Stride(d, bpp);
       && (i - Start(d, bpp)) / s == i / s - d.yOffset
       && (i - Start(d, bpp)) % s == i % s - d.xOffset * bpp)
  {
    hide Stride, Placed;
    var s := Stride(d, bpp);
    if s > 0 {
      RowFits(d, bpp);
      RectangleAt(i, s, d.yOffset, d.xOffset * bpp, d.height, d.width * bpp);
    }
  }

  lemma RectangleAt(i: nat, s: Positive, q: nat, r: nat, rows: nat, rowBytes: nat)
    requires r + rowBytes <= s
    ensures 0 <= q * s
    ensures InSlice(q * s + r, s, rows, rowBytes, i) <==>
      q <= i / s < q + rows && r <= i % s < r + rowBytes
    ensures q <= i / s && r <= i % s ==>
      (i - (q * s + r)) / s == i / s - q && (i - (q * s + r)) % s == i % s - r
  {
    SplitAt(i, s, q, r);
    var dq, dr := i / s - q, i % s - r;
    if dq < 0 {
      BelowZero(dq, s, dr);
    } else if dr >= 0 {
      ProductIsNat(dq, s);
    }
  }

  lemma BelowZero(dq: int, s: Positive, dr: int)
    requires dq < 0 && dr < s
    ensures dq * s + dr < 0
  {
    ProductOrder(dq, -1, s);
  }

  lemma SplitAt(i: nat, s: Positive, q: nat, r: nat)
    requires r <= s
    ensures var dq, dr := i / s - q, i % s - r;
      && i - (q * s + r) == dq * s + dr
      && (0 <= dr < s ==> (i - (q * s + r)) / s == dq && (i - (q * s + r)) % s == dr)
      && (dr < 0 ==> (i - (q * s + r)) / s == dq - 1 && (i - (q * s + r)) % s == dr + s)
  {
    var dq, dr := i / s - q, i % s - r;
    assert i == i / s * s + i % s;
    assert i - (q * s + r) == dq * s + dr;
    if dr < 0 {
      assert dq * s + dr == (dq - 1) * s + (dr + s);
      DivMod(dq - 1, s, dr + s);
    } else {
      DivMod(dq, s, dr);
    }
  }

  /** Everything the scaler may write lies in the image, and the image in the buffer. */
  lemma PictureIsInsideBuffer(d: Dims, bpp: nat, i: nat)
    requires Placed(d) && InPicture(d, bpp, i)
    ensures i < Visible(d, bpp)
  {
    var s := Stride(d, bpp);
    RowInside(i, s, d.containerHeight);
  }

  lemma VisibleFitsBuffer(d: Dims, bpp: nat)
    ensures Visible(d, bpp) + BUFFER_PADDING <= NeededSize(d, bpp)
  {
    var s, a := Stride(d, bpp), AlignedStride(d, bpp);
    assert s <= a;
    assert d.containerHeight * s <= d.containerHeight * a;
  }

  lemma RowInside(i: nat, s: Positive, rows: nat)
    ensures i < rows * s <==> i / s < rows
  {
    assert i == i / s * s + i % s;
    ProductOrder(i / s, rows, s);
    ProductOrder(i / s + 1, rows, s);
  }

  /** Without bars every visible byte is the picture's. */
  lemma NoBars(d: Dims, bpp: nat, i: nat)
    requires Placed(d) && !d.hasPadding && i < Visible(d, bpp)
    ensures InPicture(d, bpp, i)
  {
    var s := Stride(d, bpp);
    assert s != 0;
    RowInside(i, s, d.containerHeight);
    assert d.xOffset == 0 && d.yOffset == 0;
  }

  class FrameScaler {
    const kind: Kind
    const bpp: nat
    var context: Option<Context>
    var buffer: array<byte>
    var cachedTargetDims: Dims
    var lastSrcWidth: int
    var lastSrcHeight: int
    var lastSrcFormat: int

    /** The cache is sound: a context was made for the last size and for the dimensions now cached, those are
        what a fresh calculation gives, the image lies in the buffer, and the bars are black. */
    predicate Valid()
      reads this, buffer
    {
      context.Some? ==>
        && 0 < lastSrcWidth && 0 < lastSrcHeight
        && cachedTargetDims == CalculateTargetDimensions(kind, lastSrcWidth, lastSrcHeight)
        && context.value == Context(lastSrcWidth, lastSrcHeight, lastSrcFormat,
                                    cachedTargetDims.width, cachedTargetDims.height)
        && NeededSize(cachedTargetDims, bpp) <= buffer.Length
        && (cachedTargetDims.hasPadding ==> BarsAreBlack(cachedTargetDims, bpp, buffer[..]))
    }

    constructor (kind: Kind, bpp: nat, lastSrcWidth: int, lastSrcHeight: int, lastSrcFormat: int, dims: Dims)
      ensures Valid() && context.None? && fresh(buffer) && this.kind == kind && this.bpp == bpp
    {
      this.kind, this.bpp := kind, bpp;
      context := None;
      buffer := new byte[0];
      this.lastSrcWidth, this.lastSrcHeight, this.lastSrcFormat := lastSrcWidth, lastSrcHeight, lastSrcFormat;
      cachedTargetDims := dims;
    }

    method Cleanup()
      modifies this`context, this`buffer
      ensures Valid() && context.None? && fresh(buffer) && buffer.Length == 0
    {
      if context.Some? { context := None; }
      buffer := new byte[0];
    }

    predicate Matches(src: Source) reads this {
      context.Some? && src.width == lastSrcWidth && src.height == lastSrcHeight && src.format == lastSrcFormat
    }

    /** `granted`: whether the library gives a context for these sizes. */
    method PrepareContext(src: Source, granted: bool) returns (ready: bool)
      requires Valid() && 0 < src.width && 0 < src.height
      modifies this`context, this`buffer, this`cachedTargetDims,
        this`lastSrcWidth, this`lastSrcHeight, this`lastSrcFormat, buffer
      ensures Valid() && (buffer == old(buffer) || fresh(buffer))
      ensures ready == (old(Matches(src)) || granted)
      ensures ready == context.Some?
      ensures ready ==> Matches(src)
      ensures old(Matches(src)) ==> buffer == old(buffer) && buffer[..] == old(buffer[..])
    {
      hide BarsAreBlack, NeededSize, CalculateTargetDimensions;
      if context.Some? && src.width == lastSrcWidth && src.height == lastSrcHeight && src.format == lastSrcFormat {
        return true;
      }
      cachedTargetDims := CalculateTargetDimensions(kind, src.width, src.height);
      var dims := cachedTargetDims;
      context := if granted then Some(Context(src.width, src.height, src.format, dims.width, dims.height)) else None;
      if context.None? { return false; }
      var neededSize := NeededSize(dims, bpp);
      if buffer.Length < neededSize {
        buffer := new byte[neededSize](_ => 0);
      }
      if dims.hasPadding {
        forall i | 0 <= i < buffer.Length { buffer[i] := 0; }
        BlackIsBlack(dims, bpp, buffer[..]);
      }
      lastSrcWidth, lastSrcHeight, lastSrcFormat := src.width, src.height, src.format;
      return true;
    }

    /** Writes the picture, row by row, at a start and a stride; nothing is assumed of what it writes. */
    method SwsScale(start: nat, stride: nat, rows: nat, rowBytes: nat, picture: Picture)
      requires rowBytes <= stride
      requires forall i: nat :: InSlice(start, stride, rows, rowBytes, i) ==> i < buffer.Length
      modifies buffer
      ensures forall i :: 0 <= i < buffer.Length ==>
        buffer[i] == Sliced(start, stride, rows, rowBytes, picture, i, old(buffer[i]))
    {
      forall i | 0 <= i < buffer.Length {
        buffer[i] := Sliced(start, stride, rows, rowBytes, picture, i, buffer[i]);
      }
    }

    /** A frame either fails, or gives the container's size and an image in the buffer: the picture's bytes
        where it was painted, black in the bars. */
    method Process(frame: Option<Source>, granted: bool, picture: Picture, result: int)
      returns (size: Option<(nat, nat)>)
      requires Valid()
      modifies this`context, this`buffer, this`cachedTargetDims,
        this`lastSrcWidth, this`lastSrcHeight, this`lastSrcFormat, buffer
      ensures Valid() && (buffer == old(buffer) || fresh(buffer))
      ensures size.Some? <==> frame.Some? && 0 < frame.value.width && 0 < frame.value.height
                              && (old(Matches(frame.value)) || granted) && result > 0
      ensures size.Some? ==>
        (var d := CalculateTargetDimensions(kind, frame.value.width, frame.value.height);
         && size == Some((d.containerWidth, d.containerHeight))
         && Shows(d, bpp, picture, buffer[..]))
    {
      hide CalculateTargetDimensions, Placed, InSlice, Shows, BarsAreBlack, Start, Stride, NeededSize, Sliced, InPicture;
      if frame.None? || frame.value.width <= 0 || frame.value.height <= 0 { return None; }
      var ready := PrepareContext(frame.value, granted);
      if !ready { return None; }
      var d := cachedTargetDims;
      var dstStride := Stride(d, bpp);
      PictureIsPlaced(kind, lastSrcWidth, lastSrcHeight);
      RowFits(d, bpp);
      SliceIsInside(d, bpp, buffer.Length);
      ghost var before := buffer[..];
      SwsScale(Start(d, bpp), dstStride, d.height, d.width * bpp, picture);
      ScaledShows(d, bpp, picture, before, buffer[..]);
      if result <= 0 { return None; }
      return Some((d.containerWidth, d.containerHeight));
    }
  }

  function Sliced(start: nat, stride: nat, rows: nat, rowBytes: nat, picture: Picture, i: nat, was: byte): byte {
    if InSlice(start, stride, rows, rowBytes, i)
       && picture((i - start) / stride, (i - start) % stride).Some?
    then picture((i - start) / stride, (i - start) % stride).value
    else was
  }

  predicate BarsAreBlack(d: Dims, bpp: nat, b: seq<byte>) {
    forall i :: 0 <= i < |b| && !InPicture(d, bpp, i) ==> b[i] == 0
  }

  /** The buffer shows this picture: its bytes wherever it was painted and, if there are bars, black in them. */
  predicate Shows(d: Dims, bpp: nat, picture: Picture, b: seq<byte>) {
    && Visible(d, bpp) <= |b|
    && (forall i :: 0 <= i < |b| && InPicture(d, bpp, i) && PictureAt(d, bpp, picture, i).Some?
                    ==> b[i] == PictureAt(d, bpp, picture, i).value)
    && (d.hasPadding ==> BarsAreBlack(d, bpp, b))
  }

  lemma BlackIsBlack(d: Dims, bpp: nat, b: seq<byte>)
    requires forall i :: 0 <= i < |b| ==> b[i] == 0
    ensures BarsAreBlack(d, bpp, b)
  {
  }

  lemma SliceIsInside(d: Dims, bpp: nat, n: nat)
    requires Placed(d) && NeededSize(d, bpp) <= n
    ensures forall i: nat :: InSlice(Start(d, bpp), Stride(d, bpp), d.height, d.width * bpp, i) ==> i < n
  {
    hide Placed, InSlice, InPicture, Start, Stride, Visible, NeededSize;
    VisibleFitsBuffer(d, bpp);
    forall i: nat | InSlice(Start(d, bpp), Stride(d, bpp), d.height, d.width * bpp, i) ensures i < n {
      SliceIsRectangle(d, bpp, i);
      PictureIsInsideBuffer(d, bpp, i);
    }
  }

  lemma CellScaled(d: Dims, bpp: nat, picture: Picture, i: nat, was: byte)
    requires Placed(d)
    ensures Sliced(Start(d, bpp), Stride(d, bpp), d.height, d.width * bpp, picture, i, was) ==
      if InPicture(d, bpp, i) && PictureAt(d, bpp, picture, i).Some? then PictureAt(d, bpp, picture, i).value else was
  {
    hide Placed, InSlice, InPicture, Start, Stride;
    SliceIsRectangle(d, bpp, i);
    assert InPicture(d, bpp, i) ==> Stride(d, bpp) > 0 by { StrideOfPicture(d, bpp, i); }
  }

  lemma StrideOfPicture(d: Dims, bpp: nat, i: nat)
    ensures InPicture(d, bpp, i) ==> Stride(d, bpp) > 0
  {
  }

  lemma ScaledShows(d: Dims, bpp: nat, picture: Picture, was: seq<byte>, b: seq<byte>)
    requires Placed(d) && NeededSize(d, bpp) <= |was| == |b|
    requires d.hasPadding ==> BarsAreBlack(d, bpp, was)
    requires forall i :: 0 <= i < |b| ==>
      b[i] == Sliced(Start(d, bpp), Stride(d, bpp), d.height, d.width * bpp, picture, i, was[i])
    ensures Shows(d, bpp, picture, b)
    ensures d.hasPadding ==> BarsAreBlack(d, bpp, b)
  {
    hide Placed, InPicture, PictureAt, Start, Stride, Visible, NeededSize, Sliced;
    VisibleFitsBuffer(d, bpp);
    forall i | 0 <= i < |b|
      ensures b[i] == if InPicture(d, bpp, i) && PictureAt(d, bpp, picture, i).Some?
                      then PictureAt(d, bpp, picture, i).value else was[i]
    {
      CellScaled(d, bpp, picture, i, was[i]);
    }
  }

  /** PIXEL BY PIXEL: byte k of row `row` of the picture stands in the image behind the rows above it and the
      pixels to its left, counted in whole rows of the container. */
  lemma PixelsStandInPlace(d: Dims, bpp: nat, picture: Picture, b: seq<byte>, row: nat, k: nat)
    requires Placed(d) && Shows(d, bpp, picture, b) && row < d.height && k < d.width * bpp
    ensures var i := (d.yOffset + row) * (d.containerWidth * bpp) + (d.xOffset * bpp + k);
      && 0 <= i < |b|
      && InPicture(d, bpp, i)
      && (picture(row, k).Some? ==> b[i] == picture(row, k).value)
  {
    hide Placed;
    RowFits(d, bpp);
    ProductIsNat(d.xOffset, bpp);
    var s := d.containerWidth * bpp;
    var q, r := d.yOffset + row, d.xOffset * bpp + k;
    assert q < d.containerHeight by { RowsFit(d); }
    DivMod(q, s, r);
    var i := q * s + r;
    ProductIsNat(q, s);
    assert i / s == q && i % s == r;
    assert r < (d.xOffset + d.width) * bpp;
    PictureIsInsideBuffer(d, bpp, i);
  }

  lemma RowsFit(d: Dims)
    requires Placed(d)
    ensures d.yOffset + d.height <= d.containerHeight
  {
  }

  /** With bars, a byte that is not black is one of the picture's. */
  lemma BarsAreDark(d: Dims, bpp: nat, picture: Picture, b: seq<byte>, i: nat)
    requires Shows(d, bpp, picture, b) && d.hasPadding && i < |b| && b[i] != 0
    ensures var s := d.containerWidth * bpp;
      && s > 0
      && d.yOffset <= i / s < d.yOffset + d.height
      && d.xOffset * bpp <= i % s < (d.xOffset + d.width) * bpp
  {
  }

  /** The image does not remember: two buffers that show the same fully painted picture agree on every visible
      byte, whatever frames went before. */
  lemma ImageDependsOnFrameOnly(d: Dims, bpp: nat, picture: Picture, b: seq<byte>, c: seq<byte>)
    requires Placed(d) && Shows(d, bpp, picture, b) && Shows(d, bpp, picture, c)
    requires forall i: nat :: InPicture(d, bpp, i) ==> PictureAt(d, bpp, picture, i).Some?
    ensures b[..Visible(d, bpp)] == c[..Visible(d, bpp)]
  {
    hide Placed, InPicture, PictureAt, Visible;
    forall i | 0 <= i < Visible(d, bpp) ensures b[i] == c[i] {
      if !d.hasPadding { NoBars(d, bpp, i); }
    }
  }
}
