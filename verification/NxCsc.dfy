/**
 nxCsc between two handles: it maps both buffers, works out the plane offsets and converts, stepping
 through both with the width. What gralloc allocated is enough for any size; the picture survives
 exactly when the width is the stride or there is one row at most.
 */
module NxCsc {
  import opened Bytes
  import opened PlaneLayout
  import opened ColorConvert

  lemma PlaneSizeMonotone(stride: nat, rows: nat, stride': nat, rows': nat)
    requires stride <= stride' && rows <= rows'
    ensures PlaneSize(stride, rows) <= PlaneSize(stride', rows')
  {
    assert stride' * rows' == stride * rows + stride * (rows' - rows) + (stride' - stride) * rows';
    assert stride * (rows' - rows) >= 0 && (stride' - stride) * rows' >= 0;
  }

  lemma SmallerRowsFit(size: nat, stride: nat, w: nat, n: nat, stride': nat, n': nat)
    requires w <= stride <= stride' && n <= n' && PlaneSize(stride', n') <= size
    ensures RowsFit(size, stride, w, n)
  {
    PlaneSizeMonotone(stride, n, stride', n');
    PlaneRowsFit(size, stride, w, n);
  }

  /** For every size, the rows that the conversion steps through with the width lie inside the planes. */
  lemma PlanesFit(w: nat, h: nat)
    ensures var src := AllocFrameworkYuv(w, h, YV12);
            var cb, cr := CscSource(src, 0).1, CscSource(src, 0).2;
            cb <= src.size && cr <= src.size && Yv12Fits(src.size, src.size - cb, src.size - cr, w, w / 2, w, h)
    ensures var dst := AllocFrameworkYuv(w, h, NV21);
            var c := CscDestination(dst, 0).1;
            c <= dst.size && RowsFit(c, w, w, h) && RowsFit(dst.size, w, w, h)
            && RowsFit(dst.size - c, w, 2 * (w / 2), h / 2)
  {
    hide Align;
    var src, dst := AllocFrameworkYuv(w, h, YV12), AllocFrameworkYuv(w, h, NV21);
    Yv12PlanesAgree(w, h, 0);
    Nv21PlanesAgree(w, h, 0);
    PlanesHoldTheImage(w, h);
    var sizes, cb, cr := QbufSizes(src), CscSource(src, 0).1, CscSource(src, 0).2;
    hide PlaneSize, RowsFit;
    SmallerRowsFit(src.size, w, w, h, src.stride, Align(h, 16));
    SmallerRowsFit(src.size - cb, w / 2, w / 2, h / 2, Align(src.stride / 2, 16), Align(h / 2, 16));
    SmallerRowsFit(src.size - cr, w / 2, w / 2, h / 2, Align(src.stride / 2, 16), Align(h / 2, 16));
    var c := CscDestination(dst, 0).1;
    SmallerRowsFit(c, w, w, h, dst.stride, Align(h, 16));
    SmallerRowsFit(dst.size, w, w, h, dst.stride, Align(h, 16));
    SmallerRowsFit(dst.size - c, w, 2 * (w / 2), h / 2, dst.stride, Align(h / 2, 16));
  }

  /** The picture in a YV12 buffer, at the buffer's own strides and planes. */
  ghost function Yv12Picture(handle: PrivateHandle, bytes: seq<byte>): Picture
    requires handle == AllocFrameworkYuv(handle.width, handle.height, YV12) && |bytes| == handle.size
  {
    var (y, cb, cr) := CscSource(handle, 0);
    OwnPlanesFit(handle.width, handle.height);
    ReadYv12(bytes[y..], bytes[cb..], bytes[cr..], handle.stride, handle.stride / 2, handle.width, handle.height)
  }

  ghost function Nv21Picture(handle: PrivateHandle, bytes: seq<byte>): Picture
    requires handle == AllocFrameworkYuv(handle.width, handle.height, NV21) && |bytes| == handle.size
  {
    var (y, c) := CscDestination(handle, 0);
    OwnPlanesFit(handle.width, handle.height);
    ReadNv21(bytes[y..], bytes[c..], handle.stride, handle.width, handle.height)
  }

  /** So do the rows at the stride. */
  lemma OwnPlanesFit(w: nat, h: nat)
    ensures var src := AllocFrameworkYuv(w, h, YV12);
            var cb, cr := CscSource(src, 0).1, CscSource(src, 0).2;
            cb <= src.size && cr <= src.size
            && Yv12Fits(src.size, src.size - cb, src.size - cr, src.stride, src.stride / 2, w, h)
    ensures var dst := AllocFrameworkYuv(w, h, NV21);
            var c := CscDestination(dst, 0).1;
            c <= dst.size && RowsFit(dst.size, dst.stride, w, h) && RowsFit(dst.size - c, dst.stride, 2 * (w / 2), h / 2)
  {
    hide Align;
    var src, dst := AllocFrameworkYuv(w, h, YV12), AllocFrameworkYuv(w, h, NV21);
    Yv12PlanesAgree(w, h, 0);
    Nv21PlanesAgree(w, h, 0);
    PlanesHoldTheImage(w, h);
    var cb, cr := CscSource(src, 0).1, CscSource(src, 0).2;
    hide PlaneSize, RowsFit;
    var half := Align(src.stride / 2, 16);
    SmallerRowsFit(src.size, src.stride, w, h, src.stride, Align(h, 16));
    SmallerRowsFit(src.size - cb, src.stride / 2, w / 2, h / 2, half, Align(h / 2, 16));
    SmallerRowsFit(src.size - cr, src.stride / 2, w / 2, h / 2, half, Align(h / 2, 16));
    SmallerRowsFit(dst.size, dst.stride, w, h, dst.stride, Align(h, 16));
    SmallerRowsFit(dst.size - CscDestination(dst, 0).1, dst.stride, 2 * (w / 2), h / 2, dst.stride, Align(h / 2, 16));
  }

  /** What the conversion makes of the destination: it reads and writes rows one width apart. */
  ghost function Converted(src: PrivateHandle, from: seq<byte>, dst: PrivateHandle, to: seq<byte>): (r: seq<byte>)
    requires src == AllocFrameworkYuv(src.width, src.height, YV12) && |from| == src.size
    requires dst == AllocFrameworkYuv(src.width, src.height, NV21) && |to| == dst.size
    ensures |r| == |to|
  {
    var w, h := src.width, src.height;
    var (y, cb, cr) := CscSource(src, 0);
    PlanesFit(w, h);
    PictureOf(from, cb, cr, w, w / 2, w, h);
    AsNv21(to, 0, CscDestination(dst, 0).1, w, ReadYv12(from, from[cb..], from[cr..], w, w / 2, w, h), w, h)
  }

  /**
   nxCsc from a handle to a handle, for buffers allocated for the size. It never leaves the mapped
   buffers, whatever the size; for a width that is a multiple of 32, or at most one row, the destination
   shows the source's picture. `mapped` tells whether mmap succeeds for both.
   */
  method NxCsc(src: PrivateHandle, srcMap: array<byte>, dst: PrivateHandle, dstMap: array<byte>,
               width: nat, height: nat, mapped: bool)
    returns (ok: bool)
    requires srcMap != dstMap && srcMap.Length == src.size && dstMap.Length == dst.size
    requires src == AllocFrameworkYuv(width, height, src.format) && dst == AllocFrameworkYuv(width, height, dst.format)
    modifies dstMap
    ensures ok <==> mapped && src.format == YV12 && dst.format == NV21
    ensures ok ==> dstMap[..] == Converted(src, srcMap[..], dst, old(dstMap[..]))
    ensures !ok ==> dstMap[..] == old(dstMap[..])
    ensures ok && (width % 32 == 0 || height <= 1) ==> Nv21Picture(dst, dstMap[..]) == Yv12Picture(src, srcMap[..])
  {
    hide Align, AsNv21, RowsFit, PlaneSize, ReadYv12, ReadNv21, Yv12Picture, Nv21Picture;
    if src.format != YV12 || dst.format != NV21 {
      return false;
    }
    if !mapped {
      return false;
    }
    PlanesFit(width, height);
    OwnPlanesFit(width, height);
    assert srcMap[0..] == srcMap[..];
    var srcCb := PlaneSize(src.stride, Align(src.height, 16));
    var srcCr := srcCb + PlaneSize(Align(src.stride / 2, 16), Align(src.height / 2, 16));
    var dstCrCb := PlaneSize(dst.stride, Align(dst.height, 16));
    CscYV12ToNV21(srcMap, 0, srcCb, srcCr, dstMap, 0, dstCrCb, width, width, width, height);
    if width % 32 == 0 || height <= 1 {
      PictureKept(src, srcMap[..], dst, old(dstMap[..]));
    }
    return true;
  }

  lemma PictureOf(s: seq<byte>, cb: nat, cr: nat, stride: nat, strideC: nat, w: nat, h: nat)
    requires cb <= |s| && cr <= |s| && Yv12Fits(|s|, |s| - cb, |s| - cr, stride, strideC, w, h)
    ensures PictureFits(ReadYv12(s, s[cb..], s[cr..], stride, strideC, w, h), w, h)
  {
  }

  /** With the width as the stride, or one row at most, the destination shows the source's picture. */
  lemma PictureKept(src: PrivateHandle, from: seq<byte>, dst: PrivateHandle, to: seq<byte>)
    requires src == AllocFrameworkYuv(src.width, src.height, YV12) && |from| == src.size
    requires dst == AllocFrameworkYuv(src.width, src.height, NV21) && |to| == dst.size
    requires src.width % 32 == 0 || src.height <= 1
    ensures Nv21Picture(dst, Converted(src, from, dst, to)) == Yv12Picture(src, from)
  {
    hide Align, AsNv21, RowsFit, PlaneSize, ReadNv21, Visible;
    var w, h := src.width, src.height;
    var cb, cr, c := CscSource(src, 0).1, CscSource(src, 0).2, CscDestination(dst, 0).1;
    PlanesFit(w, h);
    OwnPlanesFit(w, h);
    PictureOf(from, cb, cr, w, w / 2, w, h);
    var p, r := ReadYv12(from, from[cb..], from[cr..], w, w / 2, w, h), Converted(src, from, dst, to);
    assert from[0..] == from && to[0..] == to && r[0..] == r;
    Nv21KeepsThePicture(p, to, 0, c, w, w, h);
    CscStepIsStride(w, h, YV12);
    CscStepIsStride(w, h, NV21);
    if h <= 1 {
      FewRows(from, from[cb..], from[cr..], w, src.stride, h);
      FewPairs(r, r[c..], w, dst.stride, h);
    }
  }

  /** One row looks the same at any stride, and has no chroma. */
  lemma FewRows(y: seq<byte>, cb: seq<byte>, cr: seq<byte>, w: nat, stride: nat, h: nat)
    requires h <= 1 && Yv12Fits(|y|, |cb|, |cr|, w, w / 2, w, h) && Yv12Fits(|y|, |cb|, |cr|, stride, stride / 2, w, h)
    ensures ReadYv12(y, cb, cr, w, w / 2, w, h) == ReadYv12(y, cb, cr, stride, stride / 2, w, h)
  {
    OneRowAtMost(y, w, stride, h);
  }

  lemma FewPairs(y: seq<byte>, crcb: seq<byte>, w: nat, stride: nat, h: nat)
    requires h <= 1 && RowsFit(|y|, w, w, h) && RowsFit(|crcb|, w, 2 * (w / 2), h / 2)
    requires RowsFit(|y|, stride, w, h) && RowsFit(|crcb|, stride, 2 * (w / 2), h / 2)
    ensures ReadNv21(y, crcb, w, w, h) == ReadNv21(y, crcb, stride, w, h)
  {
    OneRowAtMost(y, w, stride, h);
  }

  function Filled(size: nat, b: byte): (s: seq<byte>)
    ensures |s| == size && forall i :: 0 <= i < size ==> s[i] == b
  {
    seq(size, _ => b)
  }

  /** The last visible luma byte lies past the rows the conversion writes and before the chroma plane. */
  lemma LastByteIsMissed(w: nat, h: nat)
    requires 0 < w && h > 1 && w % 32 != 0
    ensures var d := AllocFrameworkYuv(w, h, NV21);
            PlaneSize(w, h) <= At(d.stride, h - 1, w - 1) < CscDestination(d, 0).1
  {
    hide Align, PlaneSize;
    PlanesHoldTheImage(w, h);
    CscStepIsStride(w, h, NV21);
    LastByte(w, AllocFrameworkYuv(w, h, NV21).stride, h, Align(h, 16));
  }

  lemma LastByte(w: nat, stride: nat, h: nat, rows: nat)
    requires 0 < w < stride && 1 < h <= rows
    ensures PlaneSize(w, h) <= At(stride, h - 1, w - 1) < PlaneSize(stride, rows)
  {
    hide PlaneSize;
    NextRow(w, h - 1);
    NextRow(stride, h - 1);
    OneWider(w, h - 1);
    PlaneSizeMonotone(w + 1, h - 1, stride, h - 1);
    PlaneSizeMonotone(stride, h, stride, rows);
  }

  lemma OneWider(stride: nat, rows: nat)
    ensures PlaneSize(stride + 1, rows) == PlaneSize(stride, rows) + rows
  {
    assert (stride + 1) * rows == stride * rows + rows;
  }

  /** Luma bytes past w * h stay what they were. */
  lemma PastTheRows(src: PrivateHandle, from: seq<byte>, dst: PrivateHandle, to: seq<byte>, k: nat)
    requires src == AllocFrameworkYuv(src.width, src.height, YV12) && |from| == src.size
    requires dst == AllocFrameworkYuv(src.width, src.height, NV21) && |to| == dst.size
    requires PlaneSize(src.width, src.height) <= k < CscDestination(dst, 0).1 <= |to|
    ensures Converted(src, from, dst, to)[k] == to[k]
  {
    hide Align, RowsFit, PlaneSize, Stored, InterleavedRows, Visible;
    var w, h := src.width, src.height;
    var cb, cr, c := CscSource(src, 0).1, CscSource(src, 0).2, CscDestination(dst, 0).1;
    PlanesFit(w, h);
    PictureOf(from, cb, cr, w, w / 2, w, h);
    var p := ReadYv12(from, from[cb..], from[cr..], w, w / 2, w, h);
    var e := PlaneSize(w, h);
    PlaneRowsFit(e, w, w, h);
    assert to[0..] == to;
    StoredEnds(to, w, w, p.y, e);
    assert Stored(to, w, w, p.y)[e..][k - e] == to[e..][k - e];
  }

  /** A byte the reader sees is left from before when the width is not the stride. */
  lemma PictureLost(w: nat, h: nat)
    requires w % 32 != 0 && h > 1
    ensures var s, d := AllocFrameworkYuv(w, h, YV12), AllocFrameworkYuv(w, h, NV21);
            var from, to := Filled(s.size, 0), Filled(d.size, 1);
            Nv21Picture(d, Converted(s, from, d, to)) != Yv12Picture(s, from)
  {
    hide Align, RowsFit, PlaneSize, Visible, Converted;
    var s, d := AllocFrameworkYuv(w, h, YV12), AllocFrameworkYuv(w, h, NV21);
    var from, to := Filled(s.size, 0), Filled(d.size, 1);
    var r := Converted(s, from, d, to);
    var k := At(d.stride, h - 1, w - 1);
    OwnPlanesFit(w, h);
    LastByteIsMissed(w, h);
    PastTheRows(s, from, d, to, k);
    assert from[0..] == from && r[0..] == r;
    VisibleRow(r, d.stride, w, h, h - 1);
    VisibleRow(from, s.stride, w, h, h - 1);
    assert Row(r, d.stride, w, h - 1)[w - 1] == r[k] == 1;
    assert Row(from, s.stride, w, h - 1)[w - 1] == 0;
  }

  /**
   nxCsc keeps the picture of every source, whatever the destination held, just when the width is a
   multiple of 32 or there is one row at most.
   */
  lemma PictureSurvives(w: nat, h: nat)
    ensures (forall from: seq<byte>, to: seq<byte> ::
               |from| == AllocFrameworkYuv(w, h, YV12).size && |to| == AllocFrameworkYuv(w, h, NV21).size ==>
                 Nv21Picture(AllocFrameworkYuv(w, h, NV21),
                             Converted(AllocFrameworkYuv(w, h, YV12), from, AllocFrameworkYuv(w, h, NV21), to))
                 == Yv12Picture(AllocFrameworkYuv(w, h, YV12), from))
       <==> w % 32 == 0 || h <= 1
  {
    hide AllocFrameworkYuv, Nv21Picture, Yv12Picture, Converted;
    var s, d := AllocFrameworkYuv(w, h, YV12), AllocFrameworkYuv(w, h, NV21);
    Allocated(w, h);
    if w % 32 == 0 || h <= 1 {
      forall from: seq<byte>, to: seq<byte> | |from| == s.size && |to| == d.size
        ensures Nv21Picture(d, Converted(s, from, d, to)) == Yv12Picture(s, from)
      {
        PictureKept(s, from, d, to);
      }
    } else {
      PictureLost(w, h);
    }
  }

  lemma Allocated(w: nat, h: nat)
    ensures var s, d := AllocFrameworkYuv(w, h, YV12), AllocFrameworkYuv(w, h, NV21);
            s.width == w == d.width && s.height == h == d.height
  {
  }

  /** QCIF, a common camera size, loses its picture. */
  lemma QcifIsLost()
    ensures var s, d := AllocFrameworkYuv(176, 144, YV12), AllocFrameworkYuv(176, 144, NV21);
            var from, to := Filled(s.size, 0), Filled(d.size, 1);
            Nv21Picture(d, Converted(s, from, d, to)) != Yv12Picture(s, from)
  {
    PictureLost(176, 144);
  }

  /**
   The reading half alone: rows one width apart are the luma rows of every buffer of the size just when
   the width is the stride or there is one row at most.
   */
  lemma WidthStepSeesTheRows(w: nat, h: nat)
    ensures (forall y: seq<byte> ::
               RowsFit(|y|, w, w, h) && RowsFit(|y|, AllocFrameworkYuv(w, h, YV12).stride, w, h) ==>
                 Visible(y, w, w, h) == Visible(y, AllocFrameworkYuv(w, h, YV12).stride, w, h))
       <==> w % 32 == 0 || h <= 1
  {
    var stride := AllocFrameworkYuv(w, h, YV12).stride;
    CscStepIsStride(w, h, YV12);
    PlanesHoldTheImage(w, h);
    if w % 32 != 0 && h > 1 {
      var y := Marked(PlaneSize(stride, h), stride);
      MisreadRow(w, stride, h);
      assert !(Visible(y, w, w, h) == Visible(y, stride, w, h));
    } else if h <= 1 {
      forall y: seq<byte> | RowsFit(|y|, w, w, h) && RowsFit(|y|, stride, w, h)
        ensures Visible(y, w, w, h) == Visible(y, stride, w, h)
      {
        OneRowAtMost(y, w, stride, h);
      }
    }
  }

  /** Zeros but for one byte. */
  function Marked(size: nat, at: nat): (s: seq<byte>)
    ensures |s| == size && forall i :: 0 <= i < size ==> s[i] == if i == at then 1 else 0
  {
    seq(size, i => if i == at then 1 else 0)
  }

  lemma {:induction false} VisibleRow(s: seq<byte>, stride: nat, w: nat, n: nat, r: nat)
    requires RowsFit(|s|, stride, w, n) && r < n
    ensures At(stride, r, 0) + w <= |s| && Visible(s, stride, w, n)[r] == Row(s, stride, w, r)
  {
    hide PlaneSize;
    FewerRowsFit(|s|, stride, w, n, n - 1);
    if r < n - 1 {
      VisibleRow(s, stride, w, n - 1, r);
    }
  }

  lemma MisreadRow(w: nat, stride: nat, h: nat)
    requires 0 < w < stride && h > 1
    ensures var y := Marked(PlaneSize(stride, h), stride);
            RowsFit(|y|, w, w, h) && RowsFit(|y|, stride, w, h) && Visible(y, w, w, h) != Visible(y, stride, w, h)
  {
    var y := Marked(PlaneSize(stride, h), stride);
    SmallerRowsFit(|y|, w, w, h, stride, h);
    SmallerRowsFit(|y|, stride, w, h, stride, h);
    VisibleRow(y, w, w, h, 1);
    VisibleRow(y, stride, w, h, 1);
    assert At(w, 1, 0) == w && At(stride, 1, 0) == stride;
    assert Row(y, w, w, 1)[0] == 0 && Row(y, stride, w, 1)[0] == 1;
  }

  lemma OneRowAtMost(y: seq<byte>, stride: nat, stride': nat, n: nat)
    requires n <= 1 && RowsFit(|y|, stride, stride, n) && RowsFit(|y|, stride', stride, n)
    ensures Visible(y, stride, stride, n) == Visible(y, stride', stride, n)
  {
    if n == 1 {
      VisibleRow(y, stride, stride, 1, 0);
      VisibleRow(y, stride', stride, 1, 0);
    }
  }
}
