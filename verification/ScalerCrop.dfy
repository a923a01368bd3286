/**
 Digital zoom: setCrop scales a crop of the base picture to the source buffer and aligns it, and the
 scaler turns it into plane addresses, rounded up to 16 bytes.
 */
module ScalerCrop {
  import opened PlaneLayout

  /** The division of C, which truncates towards zero. */
  function CDiv(a: int, b: int): int
    requires b != 0
  {
    if (a >= 0) == (b > 0) then (if a >= 0 then a else -a) / (if b > 0 then b else -b)
    else -((if a >= 0 then a else -a) / (if b > 0 then b else -b))
  }

  /** (x + 31) & ~31 */
  function Align32(x: int): int {
    x + 31 - (x + 31) % 32
  }

  datatype Context = Context(left: int, top: int, srcWidth: int, srcHeight: int, dstWidth: int, dstHeight: int)

  /** The crop scaled to the buffer, before the alignment. */
  function ScaledStart(start: int, length: int, base: int, size: int): int
    requires base != 0
  {
    if base == length then 0 else CDiv(start * size, base)
  }

  function ScaledLength(length: int, base: int, size: int): int
    requires base != 0
  {
    if base == length then size else CDiv(length * size, base)
  }

  function Clamped(start: int, length: int, size: int): int {
    if start + length > size then size - start else length
  }

  class ScalerZoomController {
    var width: int
    var height: int
    var baseWidth: int
    var baseHeight: int
    var srcLeft: int
    var srcTop: int
    var srcWidth: int
    var srcHeight: int
    var context: Context

    /** The constructor with a crop, which it sets at once. */
    constructor (crop: (int, int, int, int), base: (int, int), dst: (int, int))
      ensures width == dst.0 && height == dst.1 && baseWidth == base.0 && baseHeight == base.1
      ensures (srcLeft, srcTop, srcWidth, srcHeight) == crop
      ensures context == if crop == (0, 0, 0, 0) || width == 0 || height == 0 || baseWidth == 0 || baseHeight == 0
                         then Context(0, 0, 0, 0, 0, 0)
                         else CropContext(crop.0, crop.1, crop.2, crop.3, width, height, baseWidth, baseHeight)
    {
      width, height, baseWidth, baseHeight := dst.0, dst.1, base.0, base.1;
      srcLeft, srcTop, srcWidth, srcHeight := 0, 0, 0, 0;
      context := Context(0, 0, 0, 0, 0, 0);
      new;
      SetCrop(crop.0, crop.1, crop.2, crop.3);
    }

    /** The context is recomputed only for a new crop and only when no size is zero. */
    predicate Recomputes(left: int, top: int, w: int, h: int)
      reads this
    {
      && (srcLeft != left || srcTop != top || srcWidth != w || srcHeight != h)
      && width != 0 && height != 0 && baseWidth != 0 && baseHeight != 0
    }

    /** setCrop */
    method SetCrop(left: int, top: int, w: int, h: int)
      modifies this`srcLeft, this`srcTop, this`srcWidth, this`srcHeight, this`context
      ensures srcLeft == left && srcTop == top && srcWidth == w && srcHeight == h
      ensures !old(Recomputes(left, top, w, h)) ==> context == old(context)
      ensures old(Recomputes(left, top, w, h)) ==>
                context == CropContext(left, top, w, h, width, height, baseWidth, baseHeight)
    {
      if srcLeft != left || srcTop != top || srcWidth != w || srcHeight != h {
        srcLeft, srcTop, srcWidth, srcHeight := left, top, w, h;
        if width == 0 || height == 0 || baseWidth == 0 || baseHeight == 0 {
          return;
        }
        var calcLeft, calcTop, calcWidth, calcHeight: int;
        if baseWidth == w {
          calcLeft, calcWidth := 0, width;
        } else {
          calcLeft, calcWidth := CDiv(left * width, baseWidth), CDiv(w * width, baseWidth);
        }
        if baseHeight == h {
          calcTop, calcHeight := 0, height;
        } else {
          calcTop, calcHeight := CDiv(top * height, baseHeight), CDiv(h * height, baseHeight);
        }
        calcLeft := Align32(calcLeft);
        if calcLeft + calcWidth > width {
          calcWidth := width - calcLeft;
        }
        if calcTop + calcHeight > height {
          calcHeight := height - calcTop;
        }
        context := Context(calcLeft, calcTop, calcWidth, calcHeight, width, height);
      }
    }
  }

  function CropContext(left: int, top: int, w: int, h: int,
                       width: int, height: int, baseWidth: int, baseHeight: int): Context
    requires baseWidth != 0 && baseHeight != 0
  {
    var x := Align32(ScaledStart(left, w, baseWidth, width));
    var y := ScaledStart(top, h, baseHeight, height);
    Context(x, y,
            Clamped(x, ScaledLength(w, baseWidth, width), width),
            Clamped(y, ScaledLength(h, baseHeight, height), height),
            width, height)
  }

  /** Scaling keeps a crop inside: a start and a length that fit the base fit the buffer. */
  lemma ScaledFits(start: int, length: int, base: int, size: int)
    requires 0 <= start && 0 <= length && start + length <= base && 0 < base && 0 < size
    ensures 0 <= ScaledStart(start, length, base, size) && 0 <= ScaledLength(length, base, size)
    ensures ScaledStart(start, length, base, size) + ScaledLength(length, base, size) <= size
  {
    if base != length {
      TimesNonNegative(start, size);
      TimesNonNegative(length, size);
      var a, b := start * size, length * size;
      QuotientSum(a, b, base);
      assert a + b == (start + length) * size <= base * size by { TimesMonotone(start + length, base, size); }
      QuotientBelow(a + b, base, size);
    }
  }

  lemma TimesNonNegative(a: int, b: int)
    requires a >= 0 && b >= 0
    ensures a * b >= 0
  {
  }

  lemma TimesMonotone(a: int, b: int, c: int)
    requires a <= b && c >= 0
    ensures a * c <= b * c
  {
  }

  lemma QuotientFloor(a: nat, n: nat)
    requires n > 0
    ensures 0 <= a / n && a / n * n <= a < (a / n + 1) * n
  {
    assert a == a / n * n + a % n;
  }

  lemma QuotientAtLeast(a: nat, n: nat, q: nat)
    requires n > 0 && q * n <= a
    ensures q <= a / n
  {
    QuotientFloor(a, n);
    if a / n + 1 <= q {
      TimesMonotone(a / n + 1, q, n);
    }
  }

  lemma TimesSum(p: int, q: int, n: int)
    ensures (p + q) * n == p * n + q * n
  {
  }

  lemma QuotientSum(a: nat, b: nat, n: nat)
    requires n > 0
    ensures 0 <= a / n && 0 <= b / n && a / n + b / n <= (a + b) / n
  {
    QuotientFloor(a, n);
    QuotientFloor(b, n);
    SumAtLeast(a, b, n, a / n, b / n);
  }

  lemma SumAtLeast(a: nat, b: nat, n: nat, p: nat, q: nat)
    requires n > 0 && p * n <= a && q * n <= b
    ensures p + q <= (a + b) / n
  {
    TimesSum(p, q, n);
    QuotientAtLeast(a + b, n, p + q);
  }

  lemma QuotientBelow(a: nat, n: nat, m: nat)
    requires n > 0 && a <= n * m
    ensures a / n <= m
  {
  }

  /** C's division leaves a rest smaller than the divisor, with the dividend's sign. */
  lemma CDivTruncates(a: int, b: int)
    requires b != 0
    ensures var r := a - CDiv(a, b) * b;
            && (a >= 0 ==> 0 <= r < if b > 0 then b else -b)
            && (a <= 0 ==> 0 <= -r < if b > 0 then b else -b)
  {
    var m, n := if a >= 0 then a else -a, if b > 0 then b else -b;
    QuotientFloor(m, n);
    NegatedTimes(m / n, n);
  }

  lemma NegatedTimes(q: int, n: int)
    ensures q * -n == -(q * n) && -q * n == -(q * n) && -q * -n == q * n
  {
  }

  /** x scaled by size / base, rounded down. */
  predicate ScaledDown(r: int, x: int, size: int, base: int) {
    r * base <= x * size < (r + 1) * base
  }

  lemma QuotientScales(x: nat, size: nat, base: nat)
    requires base > 0
    ensures x * size >= 0 && ScaledDown(CDiv(x * size, base), x, size, base)
  {
    TimesNonNegative(x, size);
    QuotientFloor(x * size, base);
  }

  lemma ScaledDownUpTo(r: int, s: int, x: int, size: int, base: int)
    requires base > 0 && ScaledDown(r, x, size, base)
    ensures s <= r ==> s * base <= x * size
    ensures r <= s ==> x * size < (s + 1) * base
  {
    if s <= r { TimesMonotone(s, r, base); } else { TimesMonotone(r + 1, s + 1, base); }
  }

  /**
   What a recomputed crop is: the scaled top, the least multiple of 32 from the scaled left on, and the
   scaled sizes cut off at the buffer's edges; a crop that spans the base starts at 0.
   */
  lemma CropIsExact(left: nat, top: nat, w: nat, h: nat, width: nat, height: nat, baseWidth: nat, baseHeight: nat)
    requires 0 < width && 0 < height && 0 < baseWidth && 0 < baseHeight
    ensures var c := CropContext(left, top, w, h, width, height, baseWidth, baseHeight);
            && (if h == baseHeight then c.top == 0 else ScaledDown(c.top, top, height, baseHeight))
            && c.left % 32 == 0
            && (if w == baseWidth then c.left == 0
                else (c.left - 31) * baseWidth <= left * width < (c.left + 1) * baseWidth)
            && c.srcWidth <= width - c.left && c.srcWidth * baseWidth <= w * width
            && (c.srcWidth == width - c.left || w * width < (c.srcWidth + 1) * baseWidth)
            && c.srcHeight <= height - c.top && c.srcHeight * baseHeight <= h * height
            && (c.srcHeight == height - c.top || h * height < (c.srcHeight + 1) * baseHeight)
            && c.dstWidth == width && c.dstHeight == height
  {
    hide CDiv, ScaledDown;
    var c := CropContext(left, top, w, h, width, height, baseWidth, baseHeight);
    QuotientScales(left, width, baseWidth);
    QuotientScales(top, height, baseHeight);
    Align32Bounds(ScaledStart(left, w, baseWidth, width));
    if w != baseWidth {
      var s := ScaledStart(left, w, baseWidth, width);
      ScaledDownUpTo(s, c.left - 31, left, width, baseWidth);
      ScaledDownUpTo(s, c.left, left, width, baseWidth);
    }
    LengthScales(w, baseWidth, width);
    LengthScales(h, baseHeight, height);
    ScaledDownUpTo(ScaledLength(w, baseWidth, width), c.srcWidth, w, width, baseWidth);
    ScaledDownUpTo(ScaledLength(h, baseHeight, height), c.srcHeight, h, height, baseHeight);
  }

  lemma LengthScales(length: nat, base: nat, size: nat)
    requires base > 0
    ensures ScaledDown(ScaledLength(length, base, size), length, size, base)
  {
    QuotientScales(length, size, base);
  }

  lemma Align32Bounds(x: int)
    ensures Align32(x) % 32 == 0 && Align32(x) - 31 <= x <= Align32(x)
  {
  }

  /**
   A recomputed crop inside the base picture, for a width that is a multiple of 32: the left edge is
   32-aligned, the window lies inside the buffer and no size is negative.
   */
  lemma CropIsInside(left: int, top: int, w: int, h: int, width: int, height: int, baseWidth: int, baseHeight: int)
    requires 0 <= left && 0 <= top && 0 <= w && 0 <= h && left + w <= baseWidth && top + h <= baseHeight
    requires 0 < width && 0 < height && 0 < baseWidth && 0 < baseHeight && width % 32 == 0
    ensures var c := CropContext(left, top, w, h, width, height, baseWidth, baseHeight);
            && c.left >= 0 && c.top >= 0 && c.srcWidth >= 0 && c.srcHeight >= 0
            && c.left % 32 == 0 && c.left + c.srcWidth <= width && c.top + c.srcHeight <= height
            && c.srcHeight == ScaledLength(h, baseHeight, height)
  {
    hide ScaledStart, ScaledLength;
    ScaledFits(left, w, baseWidth, width);
    ScaledFits(top, h, baseHeight, height);
    Align32Fits(ScaledStart(left, w, baseWidth, width), width);
  }

  lemma Align32Fits(x: int, width: int)
    requires 0 <= x <= width
    ensures 0 <= x <= Align32(x) && Align32(x) % 32 == 0
    ensures Align32(x) <= width <==> x <= width - width % 32
  {
  }

  /** For other widths the source width goes negative exactly when the scaled left edge is past the last multiple of 32. */
  lemma CropWidthIsNegative(left: int, top: int, w: int, h: int, width: int, height: int, baseWidth: int, baseHeight: int)
    requires 0 <= left && 0 <= top && 0 <= w && 0 <= h && left + w <= baseWidth && top + h <= baseHeight
    requires 0 < width && 0 < height && 0 < baseWidth && 0 < baseHeight
    ensures CropContext(left, top, w, h, width, height, baseWidth, baseHeight).srcWidth < 0
       <==> ScaledStart(left, w, baseWidth, width) > width - width % 32
  {
    hide ScaledStart, ScaledLength;
    ScaledFits(left, w, baseWidth, width);
    Align32Fits(ScaledStart(left, w, baseWidth, width), width);
  }

  lemma NegativeWidthExample()
    ensures CropContext(99, 0, 1, 100, 100, 100, 100, 100).srcWidth == -28
  {
  }

  datatype PixCode = Yuv422Packed | Yuv420Planar | Yuv422Planar | Yuv444Planar | OtherCode

  /** recalcSourceBuffer; None where it leaves the address alone. */
  function RecalcSourceBuffer(phys: nat, isY: bool, left: nat, top: nat, stride: nat, code: PixCode): (r: int) {
    if isY then
      if code == Yuv422Packed then Align(phys + PlaneSize(stride, top) + left * 2, 16)
      else Align(phys + PlaneSize(stride, top) + left, 16)
    else
      match code
      case Yuv420Planar => Align(phys + PlaneSize(stride, top / 2) + left / 2, 16)
      case Yuv422Planar => Align(phys + PlaneSize(stride, top) + left / 2, 16)
      case Yuv444Planar => Align(phys + PlaneSize(stride, top) + left, 16)
      case _ => 0
  }

  /** The source addresses that nxScalerRun puts into a cleared request. */
  function SourceAddresses(phys: seq<nat>, stride: seq<nat>, left: nat, top: nat, code: PixCode): (a: seq<int>)
    requires |phys| == |stride| == 3
    ensures |a| == 3
  {
    if left > 0 || top > 0 then
      if code == Yuv422Packed then
        [RecalcSourceBuffer(phys[0], true, left, top, stride[0], code), 0, 0]
      else
        [RecalcSourceBuffer(phys[0], true, left, top, stride[0], code),
         RecalcSourceBuffer(phys[1], false, left, top, stride[1], code),
         RecalcSourceBuffer(phys[2], false, left, top, stride[2], code)]
    else phys
  }

  lemma AlignIsIdentity(x: nat)
    requires x % 16 == 0
    ensures Align(x, 16) == x
  {
  }

  lemma AlignedRow(phys: nat, stride: nat, row: nat, column: nat)
    requires phys % 16 == 0 && stride % 16 == 0 && column % 16 == 0
    ensures (phys + PlaneSize(stride, row) + column) % 16 == 0
  {
    var k := stride / 16;
    assert stride * row == 16 * (k * row);
  }

  /** In 4:2:0 the rounding does nothing on aligned planes: each address is that of the window's first sample. */
  lemma AddressesAreExact(phys: seq<nat>, stride: seq<nat>, left: nat, top: nat)
    requires |phys| == |stride| == 3 && left % 32 == 0
    requires forall i :: 0 <= i < 3 ==> phys[i] % 16 == 0 && stride[i] % 16 == 0
    ensures SourceAddresses(phys, stride, left, top, Yuv420Planar)
         == [phys[0] + PlaneSize(stride[0], top) + left,
             phys[1] + PlaneSize(stride[1], top / 2) + left / 2,
             phys[2] + PlaneSize(stride[2], top / 2) + left / 2]
  {
    hide Align, PlaneSize;
    HalfAligned(left);
    ExactAddress(phys[0], stride[0], top, left);
    ExactAddress(phys[1], stride[1], top / 2, left / 2);
    ExactAddress(phys[2], stride[2], top / 2, left / 2);
    NoRows(stride[0]);
    NoRows(stride[1]);
    NoRows(stride[2]);
  }

  /** So it does in the other planar formats. */
  lemma PlanarAddressesAreExact(phys: seq<nat>, stride: seq<nat>, left: nat, top: nat)
    requires |phys| == |stride| == 3 && left % 32 == 0
    requires forall i :: 0 <= i < 3 ==> phys[i] % 16 == 0 && stride[i] % 16 == 0
    ensures forall p :: 0 <= p < 3 ==>
              SourceAddresses(phys, stride, left, top, Yuv444Planar)[p] == phys[p] + PlaneSize(stride[p], top) + left
    ensures forall p :: 1 <= p < 3 ==>
              SourceAddresses(phys, stride, left, top, Yuv422Planar)[p] == phys[p] + PlaneSize(stride[p], top) + left / 2
    ensures SourceAddresses(phys, stride, left, top, Yuv422Planar)[0] == phys[0] + PlaneSize(stride[0], top) + left
  {
    hide Align, PlaneSize;
    HalfAligned(left);
    forall p | 0 <= p < 3
      ensures SourceAddresses(phys, stride, left, top, Yuv444Planar)[p] == phys[p] + PlaneSize(stride[p], top) + left
      ensures p > 0 ==>
                SourceAddresses(phys, stride, left, top, Yuv422Planar)[p] == phys[p] + PlaneSize(stride[p], top) + left / 2
    {
      NoRows(stride[p]);
      ExactAddress(phys[p], stride[p], top, left);
      ExactAddress(phys[p], stride[p], top, left / 2);
    }
    NoRows(stride[0]);
    ExactAddress(phys[0], stride[0], top, left);
  }

  /** A packed format has one address, two bytes a sample. */
  lemma PackedAddressIsExact(phys: seq<nat>, stride: seq<nat>, left: nat, top: nat)
    requires |phys| == |stride| == 3 && left % 32 == 0 && phys[0] % 16 == 0 && stride[0] % 16 == 0
    ensures SourceAddresses(phys, stride, left, top, Yuv422Packed)[0] == phys[0] + PlaneSize(stride[0], top) + left * 2
  {
    hide Align, PlaneSize;
    HalfAligned(left);
    NoRows(stride[0]);
    ExactAddress(phys[0], stride[0], top, left * 2);
  }

  lemma ExactAddress(phys: nat, stride: nat, row: nat, column: nat)
    requires phys % 16 == 0 && stride % 16 == 0 && column % 16 == 0
    ensures Align(phys + PlaneSize(stride, row) + column, 16) == phys + PlaneSize(stride, row) + column
  {
    hide Align, PlaneSize;
    AlignedRow(phys, stride, row, column);
    AlignIsIdentity(phys + PlaneSize(stride, row) + column);
  }

  lemma Multiple16(k: nat)
    ensures 16 * k % 16 == 0
  {
  }

  lemma HalfAligned(left: nat)
    requires left % 32 == 0
    ensures left / 2 % 16 == 0 && left % 16 == 0 && left * 2 % 16 == 0
  {
    var k := left / 32;
    assert left == 32 * k && left / 2 == 16 * k;
    Multiple16(k);
    Multiple16(2 * k);
    Multiple16(4 * k);
    assert left == 16 * (2 * k) && left * 2 == 16 * (4 * k);
  }

  lemma NoRows(stride: nat)
    ensures PlaneSize(stride, 0) == 0
  {
  }

  /** Sample (r, c) of a window, counted from its first sample, is inside a plane of the given rows. */
  lemma WindowSampleInside(stride: nat, rows: nat, columns: nat, top: nat, left: nat, h: nat, w: nat, r: nat, c: nat)
    requires columns <= stride && top + h <= rows && left + w <= columns && r < h && c < w
    ensures PlaneSize(stride, top) + left + PlaneSize(stride, r) + c == PlaneSize(stride, top + r) + (left + c)
    ensures PlaneSize(stride, top) + left + PlaneSize(stride, r) + c < PlaneSize(stride, rows)
  {
    hide PlaneSize;
    PlaneSizeSum(stride, top, r);
    PlaneSizeSum(stride, top + r, rows - (top + r));
    PlaneSizeSum(stride, 1, rows - (top + r) - 1);
    OneRow(stride);
  }

  lemma PlaneSizeSum(stride: nat, a: nat, b: nat)
    ensures PlaneSize(stride, a + b) == PlaneSize(stride, a) + PlaneSize(stride, b)
  {
  }

  lemma OneRow(stride: nat)
    ensures PlaneSize(stride, 1) == stride
  {
  }

  /** Where a window sample of the scaler's request lies. */
  function SampleAddress(address: int, stride: nat, r: nat, c: nat): int {
    address + PlaneSize(stride, r) + c
  }

  /**
   Zoom end to end in 4:2:0: for every crop inside the base picture and aligned planes at least as wide
   as the buffer, every sample the scaler reads is a sample of the right row and column of its plane.
   */
  lemma ZoomReadsInsidePlanes(crop: (int, int, int, int), width: int, height: int, baseWidth: int, baseHeight: int,
                              phys: seq<nat>, stride: seq<nat>, r: nat, c: nat)
    requires 0 <= crop.0 && 0 <= crop.1 && 0 <= crop.2 && 0 <= crop.3
    requires crop.0 + crop.2 <= baseWidth && crop.1 + crop.3 <= baseHeight
    requires 0 < width && 0 < height && 0 < baseWidth && 0 < baseHeight && width % 32 == 0
    requires |phys| == |stride| == 3 && stride[0] >= width && stride[1] >= width / 2 && stride[2] >= width / 2
    requires forall i :: 0 <= i < 3 ==> phys[i] % 16 == 0 && stride[i] % 16 == 0
    ensures var z := CropContext(crop.0, crop.1, crop.2, crop.3, width, height, baseWidth, baseHeight);
            z.left >= 0 && z.top >= 0 &&
            var a := SourceAddresses(phys, stride, z.left, z.top, Yuv420Planar);
            && (r < z.srcHeight && c < z.srcWidth ==>
                  && SampleAddress(a[0], stride[0], r, c) == phys[0] + PlaneSize(stride[0], z.top + r) + z.left + c
                  && phys[0] <= SampleAddress(a[0], stride[0], r, c) < phys[0] + PlaneSize(stride[0], height))
            && (forall p :: 1 <= p <= 2 && r < z.srcHeight / 2 && c < z.srcWidth / 2 ==>
                  && SampleAddress(a[p], stride[p], r, c)
                     == phys[p] + PlaneSize(stride[p], z.top / 2 + r) + z.left / 2 + c
                  && phys[p] <= SampleAddress(a[p], stride[p], r, c) < phys[p] + PlaneSize(stride[p], height / 2))
  {
    CropIsInside(crop.0, crop.1, crop.2, crop.3, width, height, baseWidth, baseHeight);
    hide CropContext, SourceAddresses, PlaneSize;
    var z := CropContext(crop.0, crop.1, crop.2, crop.3, width, height, baseWidth, baseHeight);
    AddressesAreExact(phys, stride, z.left, z.top);
    if r < z.srcHeight && c < z.srcWidth {
      WindowSampleInside(stride[0], height, width, z.top, z.left, z.srcHeight, z.srcWidth, r, c);
    }
    if r < z.srcHeight / 2 && c < z.srcWidth / 2 {
      WindowSampleInside(stride[1], height / 2, width / 2, z.top / 2, z.left / 2, z.srcHeight / 2, z.srcWidth / 2, r, c);
      WindowSampleInside(stride[2], height / 2, width / 2, z.top / 2, z.left / 2, z.srcHeight / 2, z.srcWidth / 2, r, c);
    }
  }
}
