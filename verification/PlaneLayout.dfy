/**
 Plane geometry of the 4:2:0 buffers: sizes as gralloc allocates them, and the plane offsets that
 the scaler, the colour converter and the V4L2 layer each compute for themselves.
 Numbers are unbounded here; the sizes of real buffers fit the C types.
 */
module PlaneLayout {
  /** ALIGN(x, a) for a power of two a. */
  function Align(x: nat, a: nat): nat
    requires a > 0
  {
    (x + a - 1) / a * a
  }

  lemma AlignProperties(x: nat, a: nat)
    requires a == 16 || a == 32 || a == 64
    ensures x <= Align(x, a) < x + a && Align(x, a) % a == 0
  {
  }

  /** Bytes in a plane. */
  function PlaneSize(stride: nat, rows: nat): nat {
    stride * rows
  }

  datatype Format = YV12 | NV21 | Yuyv

  /** The part of a private_handle_t that the users look at. */
  datatype PrivateHandle = PrivateHandle(format: Format, width: nat, height: nat, stride: nat, size: nat)

  /** gralloc_alloc_framework_yuv */
  function AllocFrameworkYuv(w: nat, h: nat, format: Format): PrivateHandle {
    var stride, vstride := Align(w, 32), Align(h, 16);
    var size :=
      match format
      case YV12 => PlaneSize(stride, vstride) + PlaneSize(Align(stride / 2, 16), Align(vstride / 2, 16)) * 2
      case NV21 => PlaneSize(stride, vstride) + PlaneSize(stride, Align(h / 2, 16))
      case Yuyv => PlaneSize(stride, vstride) * 2;
    PrivateHandle(format, w, h, stride, size)
  }

  /** getPhysForHandle: the addresses of Y, Cb and Cr, for YV12 only. */
  function ScalerPhys(handle: PrivateHandle, base: nat): seq<nat> {
    if handle.format != YV12 then []
    else
      var cb := base + PlaneSize(handle.stride, Align(handle.height, 16));
      [base, cb, cb + PlaneSize(Align(handle.stride / 2, 16), Align(handle.height / 2, 16))]
  }

  /** The source planes and the two destination planes of nxCsc from YV12 to NV21. */
  function CscSource(src: PrivateHandle, base: nat): (nat, nat, nat) {
    var srcCb := base + PlaneSize(src.stride, Align(src.height, 16));
    (base, srcCb, srcCb + PlaneSize(Align(src.stride / 2, 16), Align(src.height / 2, 16)))
  }

  function CscDestination(dst: PrivateHandle, base: nat): (nat, nat) {
    (base, base + PlaneSize(dst.stride, Align(dst.height, 16)))
  }

  /** The plane sizes that v4l2_qbuf passes to the driver. */
  function QbufSizes(handle: PrivateHandle): seq<nat> {
    var y := PlaneSize(handle.stride, Align(handle.height, 16));
    match handle.format
    case YV12 =>
      var c := PlaneSize(Align(handle.stride / 2, 16), Align(handle.height / 2, 16));
      [y, c, c]
    case NV21 => [y, PlaneSize(handle.stride, Align(handle.height / 2, 16)), 0]
    case Yuyv => [y]
  }

  lemma Align16(k: nat, r: nat)
    requires r <= 16
    ensures Align(16 * k + r, 16) == if r == 0 then 16 * k else 16 * k + 16
  {
    assert (16 * k + r + 15) / 16 == k + (r + 15) / 16;
  }

  /** How far gralloc's chroma height, from the aligned height, exceeds that of the users, from the raw one. */
  lemma ChromaHeights(h: nat)
    ensures Align(Align(h, 16) / 2, 16) == Align(h / 2, 16) + if h % 32 == 1 then 16 else 0
  {
    hide Align;
    var k, r := h / 32, h % 32;
    assert h == 32 * k + r && h / 2 == 16 * k + r / 2;
    Align16(k, r / 2);
    if r <= 16 {
      Align16(2 * k, r);
      Align16(k, 8);
      Align16(k, 0);
    } else {
      Align16(2 * k + 1, r - 16);
      Align16(k + 1, 0);
    }
  }

  lemma PlaneSizeMore(stride: nat, rows: nat)
    ensures PlaneSize(stride, rows + 16) == PlaneSize(stride, rows) + 16 * stride
  {
    assert stride * (rows + 16) == stride * rows + stride * 16;
  }

  lemma StridePositive(w: nat)
    ensures Align(w, 32) == 0 <==> w == 0
    ensures Align(Align(w, 32) / 2, 16) == 0 <==> w == 0
  {
    AlignProperties(w, 32);
    AlignProperties(Align(w, 32) / 2, 16);
  }

  /**
   For a YV12 buffer of any size the users agree on the planes: they lie end to end from the buffer's
   start and end within the allocated size, with bytes to spare exactly when the height is 1 modulo 32.
   */
  lemma Yv12PlanesAgree(w: nat, h: nat, base: nat)
    ensures var handle := AllocFrameworkYuv(w, h, YV12);
            var phys, sizes := ScalerPhys(handle, base), QbufSizes(handle);
            && |phys| == |sizes| == 3
            && CscSource(handle, base) == (phys[0], phys[1], phys[2])
            && phys[0] == base && phys[1] == phys[0] + sizes[0] && phys[2] == phys[1] + sizes[1]
            && phys[2] + sizes[2] <= base + handle.size
            && (phys[2] + sizes[2] == base + handle.size <==> w == 0 || h % 32 != 1)
  {
    ChromaHeights(h);
    StridePositive(w);
    hide Align, PlaneSize;
    PlaneSizeMore(Align(Align(w, 32) / 2, 16), Align(h / 2, 16));
  }

  /** The same for NV21, where nothing is left over. */
  lemma Nv21PlanesAgree(w: nat, h: nat, base: nat)
    ensures var handle := AllocFrameworkYuv(w, h, NV21);
            var sizes := QbufSizes(handle);
            && CscDestination(handle, base) == (base, base + sizes[0])
            && base + sizes[0] + sizes[1] == base + handle.size
  {
  }

  /** Each plane has room for every visible row and column, luma and chroma. */
  lemma PlanesHoldTheImage(w: nat, h: nat)
    ensures var handle := AllocFrameworkYuv(w, h, YV12);
            && handle.stride >= w && Align(handle.height, 16) >= h
            && Align(handle.stride / 2, 16) >= (w + 1) / 2 && Align(handle.height / 2, 16) >= h / 2
            && handle.stride % 32 == 0 && Align(handle.stride / 2, 16) == handle.stride / 2
  {
    AlignProperties(w, 32);
    AlignProperties(h, 16);
    AlignProperties(Align(w, 32) / 2, 16);
    AlignProperties(h / 2, 16);
    var k := Align(w, 32) / 32;
    assert Align(w, 32) == 32 * k;
    assert Align(w, 32) / 2 == 16 * k;
    assert Align(16 * k, 16) == 16 * k;
  }

  /** nxCsc steps through both buffers with the width, which is their stride only for multiples of 32. */
  lemma CscStepIsStride(w: nat, h: nat, format: Format)
    ensures AllocFrameworkYuv(w, h, format).stride == w <==> w % 32 == 0
  {
    hide Align;
    AlignProperties(w, 32);
  }
}
