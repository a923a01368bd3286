/**
 csc_ARGB8888_to_NV12: one loop over the pixels, with one running pointer into each of the source,
 the luma plane and the chroma plane. Luma is written for every pixel, a chroma pair for the pixels
 on even rows and columns.
 */
module ArgbConvert {
  import opened Bytes
  import opened ColorConvert
  import opened PlaneLayout

  datatype Pixel = Pixel(red: byte, green: byte, blue: byte)

  // The shift right by 8 of a possibly negative sum rounds down, as Dafny's division by 256 does.

  function LumaSum(p: Pixel): int {
    (66 * p.red + 129 * p.green + 25 * p.blue + 128) / 256 + 16
  }

  function CbSum(p: Pixel): int {
    (-38 * p.red - 74 * p.green + 112 * p.blue + 128) / 256 + 128
  }

  function CrSum(p: Pixel): int {
    (112 * p.red - 94 * p.green - 18 * p.blue + 128) / 256 + 128
  }

  function Clamp(x: int): byte {
    if x > 255 then 255 else if x < 0 then 0 else x
  }

  /** No clamp ever takes effect, and every byte is in the range of ITU-R BT.601 video. */
  lemma ClampsAreIdle(p: Pixel)
    ensures Clamp(LumaSum(p)) == LumaSum(p) && 16 <= LumaSum(p) <= 235
    ensures Clamp(CbSum(p)) == CbSum(p) && 16 <= CbSum(p) <= 240
    ensures Clamp(CrSum(p)) == CrSum(p) && 16 <= CrSum(p) <= 240
  {
  }

  /** Pixel k of the source: four bytes a pixel, the last of them unused. */
  function PixelAt(src: seq<byte>, k: nat): Pixel
    requires 4 * k + 4 <= |src|
  {
    Pixel(src[4 * k], src[4 * k + 1], src[4 * k + 2])
  }

  /** The luma bytes of the first n pixels. */
  function LumaOf(src: seq<byte>, n: nat): (r: seq<byte>)
    requires 4 * n <= |src|
    ensures |r| == n
  {
    if n == 0 then [] else LumaOf(src, n - 1) + [Clamp(LumaSum(PixelAt(src, n - 1)))]
  }

  lemma {:induction false} LumaAt(src: seq<byte>, n: nat, k: nat)
    requires 4 * n <= |src| && k < n
    ensures LumaOf(src, n)[k] == LumaSum(PixelAt(src, k))
  {
    if k < n - 1 {
      LumaAt(src, n - 1, k);
    } else {
      ClampsAreIdle(PixelAt(src, k));
    }
  }

  function Half(n: nat): nat {
    (n + 1) / 2
  }

  /** The chroma pairs of the even ones of the first n columns of a row that starts at pixel `from`. */
  function ChromaRow(src: seq<byte>, from: nat, n: nat): (r: seq<byte>)
    requires 4 * (from + n) <= |src|
    ensures |r| == 2 * Half(n)
  {
    if n == 0 then []
    else if n % 2 == 0 then ChromaRow(src, from, n - 1)
    else
      var p := PixelAt(src, from + n - 1);
      ChromaRow(src, from, n - 1) + [Clamp(CbSum(p)), Clamp(CrSum(p))]
  }

  lemma {:induction false} ChromaRowAt(src: seq<byte>, from: nat, n: nat, c: nat)
    requires 4 * (from + n) <= |src| && c < n && c % 2 == 0
    ensures ChromaRow(src, from, n)[c] == CbSum(PixelAt(src, from + c))
    ensures ChromaRow(src, from, n)[c + 1] == CrSum(PixelAt(src, from + c))
  {
    if c < n - 1 {
      ChromaRowAt(src, from, n - 1, c);
    } else {
      ClampsAreIdle(PixelAt(src, from + c));
    }
  }

  /** The chroma bytes of the even ones of the first n rows. */
  function ChromaOf(src: seq<byte>, w: nat, n: nat): (r: seq<byte>)
    requires 4 * PlaneSize(w, n) <= |src|
    ensures |r| == PlaneSize(2 * Half(w), Half(n))
  {
    if n == 0 then []
    else
      NextRow(w, n - 1);
      if n % 2 == 0 then ChromaOf(src, w, n - 1)
      else
        NextRow(2 * Half(w), Half(n - 1));
        ChromaOf(src, w, n - 1) + ChromaRow(src, PlaneSize(w, n - 1), w)
  }

  lemma {:induction false} ChromaPrefix(src: seq<byte>, w: nat, m: nat, n: nat)
    requires m <= n && PlaneSize(w, m) <= PlaneSize(w, n) && 4 * PlaneSize(w, n) <= |src|
    ensures ChromaOf(src, w, m) <= ChromaOf(src, w, n)
  {
    hide PlaneSize, ChromaRow;
    if m < n {
      NextRow(w, n - 1);
      if m < n - 1 {
        RowIndex(w, m, n - 1);
      }
      ChromaPrefix(src, w, m, n - 1);
    }
  }

  /** The pair of an even row and column is in row r / 2, at columns c and c + 1, of the chroma plane. */
  lemma ChromaAt(src: seq<byte>, w: nat, n: nat, r: nat, c: nat)
    requires 4 * PlaneSize(w, n) <= |src| && r < n && c < w && r % 2 == 0 && c % 2 == 0
    ensures At(2 * Half(w), r / 2, c) + 1 < |ChromaOf(src, w, n)| && 4 * At(w, r, c) + 4 <= |src|
    ensures ChromaOf(src, w, n)[At(2 * Half(w), r / 2, c)] == CbSum(PixelAt(src, At(w, r, c)))
    ensures ChromaOf(src, w, n)[At(2 * Half(w), r / 2, c) + 1] == CrSum(PixelAt(src, At(w, r, c)))
  {
    hide PlaneSize, ChromaRow, CbSum, CrSum, Half, PixelAt;
    NextRow(w, r);
    RowIndex(w, r, n);
    if r + 1 < n {
      RowIndex(w, r + 1, n);
    }
    ChromaPrefix(src, w, r + 1, n);
    HalfOfEven(r);
    NextRow(2 * Half(w), r / 2);
    ChromaRowAt(src, PlaneSize(w, r), w, c);
    HalfIsMore(w, c);
    var row, at := ChromaRow(src, PlaneSize(w, r), w), At(2 * Half(w), r / 2, c);
    assert ChromaOf(src, w, r + 1) == ChromaOf(src, w, r) + row;
    assert ChromaOf(src, w, r + 1)[at] == row[c] && ChromaOf(src, w, r + 1)[at + 1] == row[c + 1];
  }

  lemma HalfOfEven(r: nat)
    requires r % 2 == 0
    ensures Half(r) == r / 2 && Half(r + 1) == r / 2 + 1
  {
  }

  lemma HalfIsMore(w: nat, c: nat)
    requires c < w && c % 2 == 0
    ensures c + 1 < 2 * Half(w)
  {
  }

  /** q is x / 256 to the nearest integer, halves rounded up. */
  predicate Rounds(q: int, x: int) {
    256 * q - 128 <= x < 256 * q + 128
  }

  lemma SumsRound(p: Pixel)
    ensures Rounds(LumaSum(p) - 16, 66 * p.red + 129 * p.green + 25 * p.blue)
    ensures Rounds(CbSum(p) - 128, -38 * p.red - 74 * p.green + 112 * p.blue)
    ensures Rounds(CrSum(p) - 128, 112 * p.red - 94 * p.green - 18 * p.blue)
  {
  }

  /** Pixel k's first three bytes are its red, green and blue. */
  predicate LumaTells(src: seq<byte>, k: nat, y: int)
    requires 4 * k + 4 <= |src|
  {
    var R: int, G: int, B: int := src[4 * k], src[4 * k + 1], src[4 * k + 2];
    Rounds(y - 16, 66 * R + 129 * G + 25 * B)
  }

  predicate ChromaTells(src: seq<byte>, k: nat, cb: int, cr: int)
    requires 4 * k + 4 <= |src|
  {
    var R: int, G: int, B: int := src[4 * k], src[4 * k + 1], src[4 * k + 2];
    && Rounds(cb - 128, -38 * R - 74 * G + 112 * B)
    && Rounds(cr - 128, 112 * R - 94 * G - 18 * B)
  }

  /**
   The formula of ITU-R BT.601 for the pixel in row r and column c: luma for each, and Cb and Cr next to
   each other for each even row and column.
   */
  lemma PixelConverted(src: seq<byte>, w: nat, h: nat, r: nat, c: nat)
    requires 4 * PlaneSize(w, h) <= |src| && r < h && c < w
    ensures var k := w * r + c;
            && 0 <= k < |LumaOf(src, PlaneSize(w, h))| && 4 * k + 4 <= |src|
            && LumaTells(src, k, LumaOf(src, PlaneSize(w, h))[k])
            && (r % 2 == 0 && c % 2 == 0 ==>
                  var chroma, q := ChromaOf(src, w, h), At(2 * Half(w), r / 2, c);
                  q + 1 < |chroma| && ChromaTells(src, k, chroma[q], chroma[q + 1]))
  {
    hide Rounds, LumaSum, CbSum, CrSum, Half, LumaOf, ChromaOf, PlaneSize, ChromaRow;
    var k := At(w, r, c);
    PixelIndex(w, r, c);
    RowIndex(w, r, h);
    LumaAt(src, PlaneSize(w, h), k);
    SumsRound(PixelAt(src, k));
    if r % 2 == 0 && c % 2 == 0 {
      ChromaAt(src, w, h, r, c);
    }
  }

  lemma PixelIndex(w: nat, r: nat, c: nat)
    ensures At(w, r, c) == w * r + c
  {
  }

  /** One pixel: luma always, chroma only if `both`. */
  method ConvertPixel(src: array<byte>, k: nat, dstY: array<byte>, dstCbCr: array<byte>, q: nat, both: bool)
    requires src != dstY && src != dstCbCr && dstY != dstCbCr
    requires 4 * k + 4 <= src.Length && k < dstY.Length && (both ==> q + 2 <= dstCbCr.Length)
    modifies dstY, dstCbCr
    ensures dstY[..] == old(dstY[..])[k := Clamp(LumaSum(PixelAt(src[..], k)))]
    ensures !both ==> dstCbCr[..] == old(dstCbCr[..])
    ensures both ==> dstCbCr[..]
                     == old(dstCbCr[..])[q := Clamp(CbSum(PixelAt(src[..], k)))][q + 1 := Clamp(CrSum(PixelAt(src[..], k)))]
  {
    hide LumaSum, CbSum, CrSum, Clamp;
    var p := Pixel(src[4 * k], src[4 * k + 1], src[4 * k + 2]);
    dstY[k] := Clamp(LumaSum(p));
    if both {
      dstCbCr[q] := Clamp(CbSum(p));
      dstCbCr[q + 1] := Clamp(CrSum(p));
    }
  }

  lemma OverwriteTwoMore(s: seq<byte>, bytes: seq<byte>, b: byte, c: byte)
    requires |bytes| + 2 <= |s|
    ensures Overwrite(s, 0, bytes + [b, c]) == Overwrite(s, 0, bytes)[|bytes| := b][|bytes| + 1 := c]
  {
  }

  /** The luma plane once the first n pixels are converted. */
  ghost function LumaPlane(y: seq<byte>, src: seq<byte>, n: nat): (r: seq<byte>)
    requires 4 * n <= |src| && n <= |y|
    ensures |r| == |y|
  {
    Overwrite(y, 0, LumaOf(src, n))
  }

  /** The chroma plane once the bytes `done` and, on an even row, n columns are. */
  ghost function ChromaPlane(cbcr: seq<byte>, done: seq<byte>, src: seq<byte>, from: nat, n: nat, even: bool): (r: seq<byte>)
    requires 4 * (from + n) <= |src| && |done| + RowBytes(n, even) <= |cbcr|
    ensures |r| == |cbcr|
  {
    Overwrite(cbcr, 0, done + if even then ChromaRow(src, from, n) else [])
  }

  function RowBytes(n: nat, even: bool): nat {
    if even then 2 * Half(n) else 0
  }

  lemma LumaStep(y: seq<byte>, src: seq<byte>, n: nat)
    requires 4 * (n + 1) <= |src| && n + 1 <= |y|
    ensures LumaPlane(y, src, n + 1) == LumaPlane(y, src, n)[n := Clamp(LumaSum(PixelAt(src, n)))]
  {
    hide LumaSum, Clamp, Overwrite, PixelAt;
    OverwriteMore(y, 0, LumaOf(src, n), Clamp(LumaSum(PixelAt(src, n))));
  }

  lemma ChromaColumn(cbcr: seq<byte>, done: seq<byte>, src: seq<byte>, from: nat, n: nat, even: bool)
    requires 4 * (from + n + 1) <= |src| && |done| + RowBytes(n + 1, even) <= |cbcr|
    ensures var both, q, p := even && n % 2 == 0, |done| + RowBytes(n, even), PixelAt(src, from + n);
            && RowBytes(n + 1, even) == RowBytes(n, even) + (if both then 2 else 0)
            && ChromaPlane(cbcr, done, src, from, n + 1, even)
               == if both then ChromaPlane(cbcr, done, src, from, n, even)[q := Clamp(CbSum(p))][q + 1 := Clamp(CrSum(p))]
                  else ChromaPlane(cbcr, done, src, from, n, even)
  {
    hide CbSum, CrSum, Clamp, Overwrite, PixelAt;
    if even && n % 2 == 0 {
      var row, p := ChromaRow(src, from, n), PixelAt(src, from + n);
      OverwriteTwoMore(cbcr, done + row, Clamp(CbSum(p)), Clamp(CrSum(p)));
      assert done + row + [Clamp(CbSum(p)), Clamp(CrSum(p))] == done + ChromaRow(src, from, n + 1);
    }
  }

  /**
   One row: the inner loop, from pixel `from`, when the planes y and cbcr have been overwritten by the
   luma of the pixels before it and by the chroma bytes `done`. Returns the chroma pointer.
   */
  method ConvertRow(src: array<byte>, dstY: array<byte>, dstCbCr: array<byte>, from: nat, even: bool, w: nat, p: nat,
                    ghost y: seq<byte>, ghost cbcr: seq<byte>, ghost done: seq<byte>) returns (q: nat)
    requires src != dstY && src != dstCbCr && dstY != dstCbCr
    requires 4 * (from + w) <= src.Length && from + w <= |y|
    requires dstY[..] == LumaPlane(y, src[..], from)
    requires p == |done| && p + RowBytes(w, even) <= |cbcr|
    requires dstCbCr[..] == Overwrite(cbcr, 0, done)
    modifies dstY, dstCbCr
    ensures dstY[..] == LumaPlane(y, src[..], from + w)
    ensures q == |done| + RowBytes(w, even)
    ensures dstCbCr[..] == ChromaPlane(cbcr, done, src[..], from, w, even)
  {
    hide LumaSum, CbSum, CrSum, Clamp, Overwrite, PixelAt, LumaPlane, ChromaPlane, RowBytes;
    q := p;
    NoColumns(cbcr, done, src[..], from, even);
    for c := 0 to w
      invariant q == |done| + RowBytes(c, even) <= |done| + RowBytes(w, even)
      invariant dstY[..] == LumaPlane(y, src[..], from + c)
      invariant dstCbCr[..] == ChromaPlane(cbcr, done, src[..], from, c, even)
    {
      FewerColumns(c + 1, w, even);
      LumaStep(y, src[..], from + c);
      ChromaColumn(cbcr, done, src[..], from, c, even);
      ConvertPixel(src, from + c, dstY, dstCbCr, q, even && c % 2 == 0);
      if even && c % 2 == 0 {
        q := q + 2;
      }
    }
  }

  lemma NoColumns(cbcr: seq<byte>, done: seq<byte>, src: seq<byte>, from: nat, even: bool)
    requires 4 * from <= |src| && |done| <= |cbcr|
    ensures RowBytes(0, even) == 0 && ChromaPlane(cbcr, done, src, from, 0, even) == Overwrite(cbcr, 0, done)
  {
    hide Overwrite;
    assert done + [] == done;
  }

  lemma FewerColumns(m: nat, n: nat, even: bool)
    requires m <= n
    ensures RowBytes(m, even) <= RowBytes(n, even)
  {
  }

  /** csc_ARGB8888_to_NV12: the two planes, and not a byte after them. */
  method CscArgb8888ToNv12(dstY: array<byte>, dstCbCr: array<byte>, src: array<byte>, w: nat, h: nat)
    requires src != dstY && src != dstCbCr && dstY != dstCbCr
    requires 4 * PlaneSize(w, h) <= src.Length && PlaneSize(w, h) <= dstY.Length
    requires PlaneSize(2 * Half(w), Half(h)) <= dstCbCr.Length
    modifies dstY, dstCbCr
    ensures dstY[..] == Overwrite(old(dstY[..]), 0, LumaOf(src[..], PlaneSize(w, h)))
    ensures dstCbCr[..] == Overwrite(old(dstCbCr[..]), 0, ChromaOf(src[..], w, h))
  {
    hide PlaneSize, ChromaRow, LumaOf, ChromaOf, Half, Overwrite;
    var k, p := 0, 0;
    NothingYet(src[..], w, dstY[..], dstCbCr[..]);
    for r := 0 to h
      invariant k == PlaneSize(w, r) <= PlaneSize(w, h) && p == PlaneSize(2 * Half(w), Half(r)) <= dstCbCr.Length
      invariant dstY[..] == Overwrite(old(dstY[..]), 0, LumaOf(src[..], k))
      invariant dstCbCr[..] == Overwrite(old(dstCbCr[..]), 0, ChromaOf(src[..], w, r))
    {
      ChromaStep(src[..], w, r, h);
      ghost var done := ChromaOf(src[..], w, r);
      assert done + [] == done;
      p := ConvertRow(src, dstY, dstCbCr, k, r % 2 == 0, w, p, old(dstY[..]), old(dstCbCr[..]), done);
      k := k + w;
    }
  }

  lemma NothingYet(src: seq<byte>, w: nat, y: seq<byte>, cbcr: seq<byte>)
    ensures PlaneSize(w, 0) == 0 == PlaneSize(2 * Half(w), Half(0))
    ensures y == Overwrite(y, 0, LumaOf(src, 0)) && cbcr == Overwrite(cbcr, 0, ChromaOf(src, w, 0))
  {
  }

  lemma ChromaStep(src: seq<byte>, w: nat, r: nat, h: nat)
    requires r < h && 4 * PlaneSize(w, h) <= |src|
    ensures PlaneSize(w, r) + w == PlaneSize(w, r + 1) <= PlaneSize(w, h)
    ensures ChromaOf(src, w, r + 1) == ChromaOf(src, w, r) + if r % 2 == 0 then ChromaRow(src, PlaneSize(w, r), w) else []
    ensures PlaneSize(2 * Half(w), Half(r + 1)) == PlaneSize(2 * Half(w), Half(r)) + if r % 2 == 0 then 2 * Half(w) else 0
    ensures PlaneSize(2 * Half(w), Half(r + 1)) <= PlaneSize(2 * Half(w), Half(h))
  {
    hide PlaneSize, ChromaRow;
    NextRow(w, r);
    if r + 1 < h {
      RowIndex(w, r + 1, h);
    }
    if r % 2 == 0 {
      NextRow(2 * Half(w), Half(r));
    }
    if Half(r + 1) < Half(h) {
      RowIndex(2 * Half(w), Half(r + 1), Half(h));
    }
  }
}
