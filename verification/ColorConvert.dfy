/**
 Colour conversion: the loops of csc.cpp over byte planes. Each is proved against a function of its
 input planes; the lemmas say what those functions mean for the picture a reader sees.
 */
module ColorConvert {
  import opened Bytes
  import opened PlaneLayout

  /** The index of a sample. */
  function At(stride: nat, row: nat, column: nat): nat {
    PlaneSize(stride, row) + column
  }

  lemma RowIndex(stride: nat, r: nat, n: nat)
    requires r < n
    ensures At(stride, r, 0) + stride <= At(stride, n, 0)
  {
    var d := n - r - 1;
    assert stride * n == stride * r + stride + stride * d;
    assert stride * d >= 0;
  }

  lemma FirstRow(stride: nat)
    ensures At(stride, 0, 0) == 0
  {
  }

  lemma NextRow(stride: nat, i: nat)
    ensures At(stride, i + 1, 0) == At(stride, i, 0) + stride
  {
  }

  /** The last of n rows of w samples ends inside a buffer. */
  ghost predicate RowsFit(size: nat, stride: nat, w: nat, n: nat) {
    n > 0 ==> At(stride, n - 1, 0) + w <= size
  }

  lemma FewerRowsFit(size: nat, stride: nat, w: nat, n: nat, m: nat)
    requires RowsFit(size, stride, w, n) && m <= n
    ensures RowsFit(size, stride, w, m)
  {
    if 0 < m < n {
      RowIndex(stride, m - 1, n - 1);
    }
  }

  /** Rows no wider than the stride fit a whole plane. */
  lemma PlaneRowsFit(size: nat, stride: nat, w: nat, n: nat)
    requires w <= stride && PlaneSize(stride, n) <= size
    ensures RowsFit(size, stride, w, n)
  {
    if n > 0 {
      NextRow(stride, n - 1);
    }
  }

  function Overwrite(s: seq<byte>, at: nat, bytes: seq<byte>): (r: seq<byte>)
    requires at + |bytes| <= |s|
    ensures |r| == |s|
  {
    s[..at] + bytes + s[at + |bytes|..]
  }

  lemma OverwriteAt(s: seq<byte>, at: nat, bytes: seq<byte>, k: nat)
    requires at + |bytes| <= |s| && k < |s|
    ensures Overwrite(s, at, bytes)[k] == if at <= k < at + |bytes| then bytes[k - at] else s[k]
  {
  }

  lemma OverwriteMore(s: seq<byte>, at: nat, bytes: seq<byte>, b: byte)
    requires at + |bytes| < |s|
    ensures Overwrite(s, at, bytes + [b]) == Overwrite(s, at, bytes)[at + |bytes| := b]
  {
  }

  function Row(s: seq<byte>, stride: nat, w: nat, r: nat): (row: seq<byte>)
    requires At(stride, r, 0) + w <= |s|
    ensures |row| == w
  {
    s[At(stride, r, 0)..At(stride, r, 0) + w]
  }

  type Rows = seq<seq<byte>>

  ghost predicate Wide(rows: Rows, w: nat) {
    forall r :: 0 <= r < |rows| ==> |rows[r]| == w
  }

  /** The n visible rows of a plane. */
  ghost function Visible(s: seq<byte>, stride: nat, w: nat, n: nat): (rows: Rows)
    requires RowsFit(|s|, stride, w, n)
    ensures |rows| == n && Wide(rows, w)
  {
    if n == 0 then []
    else
      FewerRowsFit(|s|, stride, w, n, n - 1);
      Visible(s, stride, w, n - 1) + [Row(s, stride, w, n - 1)]
  }

  /** A plane after rows were stored at its stride. */
  ghost function Stored(dst: seq<byte>, stride: nat, w: nat, rows: Rows): (r: seq<byte>)
    requires Wide(rows, w) && RowsFit(|dst|, stride, w, |rows|)
    ensures |r| == |dst|
  {
    var n := |rows|;
    if n == 0 then dst
    else
      FewerRowsFit(|dst|, stride, w, n, n - 1);
      Overwrite(Stored(dst, stride, w, rows[..n - 1]), At(stride, n - 1, 0), rows[n - 1])
  }

  /** The rows seen depend on nothing past the last of them. */
  lemma {:induction false} VisiblePrefix(s: seq<byte>, t: seq<byte>, e: nat, stride: nat, w: nat, n: nat)
    requires e <= |s| && e <= |t| && s[..e] == t[..e] && RowsFit(e, stride, w, n)
    ensures RowsFit(|s|, stride, w, n) && RowsFit(|t|, stride, w, n)
    ensures Visible(s, stride, w, n) == Visible(t, stride, w, n)
  {
    hide PlaneSize;
    if n > 0 {
      FewerRowsFit(e, stride, w, n, n - 1);
      VisiblePrefix(s, t, e, stride, w, n - 1);
      var a := At(stride, n - 1, 0);
      assert s[a..a + w] == s[..e][a..a + w] == t[..e][a..a + w] == t[a..a + w];
    }
  }

  /** An update past the visible rows does not show. */
  lemma VisibleBefore(s: seq<byte>, stride: nat, w: nat, n: nat, bytes: seq<byte>)
    requires w <= stride && |bytes| == w && At(stride, n, 0) + w <= |s|
    requires RowsFit(|s|, stride, w, n)
    ensures Visible(Overwrite(s, At(stride, n, 0), bytes), stride, w, n) == Visible(s, stride, w, n)
  {
    if n > 0 {
      NextRow(stride, n - 1);
    }
    VisiblePrefix(s, Overwrite(s, At(stride, n, 0), bytes), At(stride, n, 0), stride, w, n);
  }

  /** Stored rows are the rows seen: rows no wider than the stride do not overlap. */
  lemma {:induction false} StoredVisible(dst: seq<byte>, stride: nat, w: nat, rows: Rows)
    requires w <= stride && Wide(rows, w) && RowsFit(|dst|, stride, w, |rows|)
    ensures Visible(Stored(dst, stride, w, rows), stride, w, |rows|) == rows
  {
    hide PlaneSize;
    var n := |rows|;
    if n > 0 {
      FewerRowsFit(|dst|, stride, w, n, n - 1);
      StoredVisible(dst, stride, w, rows[..n - 1]);
      VisibleBefore(Stored(dst, stride, w, rows[..n - 1]), stride, w, n - 1, rows[n - 1]);
      assert rows == rows[..n - 1] + [rows[n - 1]];
    }
  }

  /** Every byte outside the rows is untouched: the padding of each row and all that follows. */
  lemma {:induction false} StoredPadding(dst: seq<byte>, stride: nat, w: nat, rows: Rows, k: nat)
    requires Wide(rows, w) && RowsFit(|dst|, stride, w, |rows|) && k < |dst|
    requires forall r :: 0 <= r < |rows| ==> !(At(stride, r, 0) <= k < At(stride, r, 0) + w)
    ensures Stored(dst, stride, w, rows)[k] == dst[k]
  {
    hide PlaneSize, Overwrite;
    var n := |rows|;
    if n > 0 {
      FewerRowsFit(|dst|, stride, w, n, n - 1);
      StoredPadding(dst, stride, w, rows[..n - 1], k);
      OverwriteAt(Stored(dst, stride, w, rows[..n - 1]), At(stride, n - 1, 0), rows[n - 1], k);
    }
  }

  /** One more row. */
  lemma StoredMore(dst: seq<byte>, stride: nat, w: nat, rows: Rows, row: seq<byte>)
    requires Wide(rows, w) && |row| == w && RowsFit(|dst|, stride, w, |rows| + 1)
    ensures RowsFit(|dst|, stride, w, |rows|) && Wide(rows + [row], w)
    ensures Stored(dst, stride, w, rows + [row]) == Overwrite(Stored(dst, stride, w, rows), At(stride, |rows|, 0), row)
  {
    hide PlaneSize, Overwrite;
    FewerRowsFit(|dst|, stride, w, |rows| + 1, |rows|);
    assert (rows + [row])[..|rows|] == rows;
  }

  lemma OneMoreRow(dst: seq<byte>, src: seq<byte>, ss: nat, ds: nat, w: nat, i: nat, h: nat)
    requires i < h && RowsFit(|dst|, ds, w, h) && RowsFit(|src|, ss, w, h)
    ensures RowsFit(|dst|, ds, w, i + 1) && RowsFit(|src|, ss, w, i + 1)
    ensures RowsFit(|dst|, ds, w, i) && RowsFit(|src|, ss, w, i)
    ensures Stored(dst, ds, w, Visible(src, ss, w, i + 1)) ==
      Overwrite(Stored(dst, ds, w, Visible(src, ss, w, i)), At(ds, i, 0), Row(src, ss, w, i))
  {
    hide Overwrite, PlaneSize;
    FewerRowsFit(|dst|, ds, w, h, i + 1);
    FewerRowsFit(|src|, ss, w, h, i + 1);
    FewerRowsFit(|dst|, ds, w, h, i);
    FewerRowsFit(|src|, ss, w, h, i);
    StoredMore(dst, ds, w, Visible(src, ss, w, i), Row(src, ss, w, i));
  }

  /** A buffer after rows were stored at its stride from index `base` on. */
  ghost function StoredAt(dst: seq<byte>, base: nat, stride: nat, w: nat, rows: Rows): (r: seq<byte>)
    requires Wide(rows, w) && base <= |dst| && RowsFit(|dst| - base, stride, w, |rows|)
    ensures |r| == |dst|
  {
    dst[..base] + Stored(dst[base..], stride, w, rows)
  }

  lemma OverwriteFrom(s: seq<byte>, base: nat, at: nat, bytes: seq<byte>, t: seq<byte>)
    requires base + at + |bytes| <= |s| && base + |t| == |s|
    ensures Overwrite(s[..base] + t, base + at, bytes) == s[..base] + Overwrite(t, at, bytes)
  {
  }

  /** memcpy between two buffers. */
  method MemCopy(dst: array<byte>, to: nat, src: array<byte>, from: nat, n: nat)
    requires dst != src && to + n <= dst.Length && from + n <= src.Length
    modifies dst
    ensures dst[..] == Overwrite(old(dst[..]), to, src[from..from + n])
  {
    forall i | 0 <= i < n {
      dst[to + i] := src[from + i];
    }
  }

  /** A row-wise copy with running pointers. */
  method CopyRows(src: array<byte>, srcY: nat, dst: array<byte>, dstY: nat, ss: nat, ds: nat, w: nat, h: nat)
    requires dst != src && dstY <= dst.Length && srcY <= src.Length
    requires RowsFit(dst.Length - dstY, ds, w, h) && RowsFit(src.Length - srcY, ss, w, h)
    modifies dst
    ensures dst[..] == StoredAt(old(dst[..]), dstY, ds, w, Visible(src[srcY..], ss, w, h))
  {
    hide Overwrite, PlaneSize, Stored, Visible, Row;
    ghost var s, t := dst[..], src[srcY..];
    var psrc, pdst := srcY, dstY;
    FirstRow(ss);
    FirstRow(ds);
    StoredNothing(s, dstY, ds, w, t, ss);
    for i := 0 to h
      invariant psrc == srcY + At(ss, i, 0) && pdst == dstY + At(ds, i, 0)
      invariant RowsFit(dst.Length - dstY, ds, w, i) && RowsFit(src.Length - srcY, ss, w, i)
      invariant dst[..] == StoredAt(s, dstY, ds, w, Visible(t, ss, w, i))
    {
      OneMoreRow(s[dstY..], t, ss, ds, w, i, h);
      OverwriteFrom(s, dstY, At(ds, i, 0), Row(t, ss, w, i), Stored(s[dstY..], ds, w, Visible(t, ss, w, i)));
      RowFrom(src[..], srcY, ss, w, i);
      MemCopy(dst, pdst, src, psrc, w);
      NextRow(ss, i);
      NextRow(ds, i);
      psrc := psrc + ss;
      pdst := pdst + ds;
    }
  }

  lemma RowFrom(s: seq<byte>, base: nat, stride: nat, w: nat, r: nat)
    requires base + At(stride, r, 0) + w <= |s|
    ensures s[base + At(stride, r, 0)..base + At(stride, r, 0) + w] == Row(s[base..], stride, w, r)
  {
  }

  lemma NothingStored(dst: seq<byte>, ds: nat, w: nat, src: seq<byte>, ss: nat)
    ensures Stored(dst, ds, w, Visible(src, ss, w, 0)) == dst
  {
  }

  lemma StoredNothing(dst: seq<byte>, base: nat, ds: nat, w: nat, src: seq<byte>, ss: nat)
    requires base <= |dst|
    ensures StoredAt(dst, base, ds, w, Visible(src, ss, w, 0)) == dst
  {
  }

  /** a[0], b[0], a[1], b[1], ... */
  function Interleave(a: seq<byte>, b: seq<byte>): (r: seq<byte>)
    requires |a| == |b|
    ensures |r| == 2 * |a|
  {
    var n := |a|;
    if n == 0 then [] else Interleave(a[..n - 1], b[..n - 1]) + [a[n - 1], b[n - 1]]
  }

  /** The even-indexed bytes of a row of pairs. */
  function Firsts(s: seq<byte>): (r: seq<byte>)
    ensures |r| == |s| / 2
  {
    if |s| < 2 then [] else [s[0]] + Firsts(s[2..])
  }

  /** The odd-indexed bytes of a row of pairs. */
  function Seconds(s: seq<byte>): (r: seq<byte>)
    ensures |r| == |s| / 2
  {
    if |s| < 2 then [] else [s[1]] + Seconds(s[2..])
  }

  lemma {:induction false} PairsAt(s: seq<byte>, k: nat)
    requires k < |s| / 2
    ensures Firsts(s)[k] == s[2 * k] && Seconds(s)[k] == s[2 * k + 1]
  {
    if k > 0 {
      PairsAt(s[2..], k - 1);
    }
  }

  lemma {:induction false} InterleavedAt(a: seq<byte>, b: seq<byte>, k: nat)
    requires |a| == |b| && k < |a|
    ensures Interleave(a, b)[2 * k] == a[k] && Interleave(a, b)[2 * k + 1] == b[k]
  {
    var n := |a|;
    if k < n - 1 {
      InterleavedAt(a[..n - 1], b[..n - 1], k);
    }
  }

  /** Taking an interleaved row apart gives its parts. */
  lemma Separated(a: seq<byte>, b: seq<byte>)
    requires |a| == |b|
    ensures Firsts(Interleave(a, b)) == a && Seconds(Interleave(a, b)) == b
  {
    hide Interleave, Firsts, Seconds;
    var s := Interleave(a, b);
    forall k | 0 <= k < |a|
      ensures Firsts(s)[k] == a[k] && Seconds(s)[k] == b[k]
    {
      InterleavedAt(a, b, k);
      PairsAt(s, k);
    }
  }

  ghost function InterleavedRows(a: Rows, b: Rows, w: nat): (rows: Rows)
    requires |a| == |b| && Wide(a, w) && Wide(b, w)
    ensures |rows| == |a| && Wide(rows, 2 * w)
  {
    var n := |a|;
    if n == 0 then [] else InterleavedRows(a[..n - 1], b[..n - 1], w) + [Interleave(a[n - 1], b[n - 1])]
  }

  ghost function FirstsOfRows(rows: Rows): (r: Rows) {
    var n := |rows|;
    if n == 0 then [] else FirstsOfRows(rows[..n - 1]) + [Firsts(rows[n - 1])]
  }

  ghost function SecondsOfRows(rows: Rows): (r: Rows) {
    var n := |rows|;
    if n == 0 then [] else SecondsOfRows(rows[..n - 1]) + [Seconds(rows[n - 1])]
  }

  lemma {:induction false} SeparatedRows(a: Rows, b: Rows, w: nat)
    requires |a| == |b| && Wide(a, w) && Wide(b, w)
    ensures FirstsOfRows(InterleavedRows(a, b, w)) == a
    ensures SecondsOfRows(InterleavedRows(a, b, w)) == b
  {
    hide Interleave, Firsts, Seconds, FirstsOfRows, SecondsOfRows;
    var n := |a|;
    if n == 0 {
      assert InterleavedRows(a, b, w) == [];
      NoRows();
    } else {
      var a0, b0 := a[..n - 1], b[..n - 1];
      SeparatedRows(a0, b0, w);
      Separated(a[n - 1], b[n - 1]);
      MoreSeparatedRows(InterleavedRows(a0, b0, w), Interleave(a[n - 1], b[n - 1]));
      assert a == a0 + [a[n - 1]] && b == b0 + [b[n - 1]];
    }
  }

  lemma NoRows()
    ensures FirstsOfRows([]) == [] && SecondsOfRows([]) == []
  {
  }

  lemma MoreSeparatedRows(rows: Rows, row: seq<byte>)
    ensures FirstsOfRows(rows + [row]) == FirstsOfRows(rows) + [Firsts(row)]
    ensures SecondsOfRows(rows + [row]) == SecondsOfRows(rows) + [Seconds(row)]
  {
    hide Firsts, Seconds;
    assert (rows + [row])[..|rows|] == rows;
  }

  /** What a reader sees: rows of luma and rows of half-width, half-height chroma. */
  datatype Picture = Picture(y: Rows, cb: Rows, cr: Rows)

  ghost predicate Yv12Fits(y: nat, cb: nat, cr: nat, stride: nat, strideC: nat, w: nat, h: nat) {
    RowsFit(y, stride, w, h) && RowsFit(cb, strideC, w / 2, h / 2) && RowsFit(cr, strideC, w / 2, h / 2)
  }

  ghost function ReadYv12(y: seq<byte>, cb: seq<byte>, cr: seq<byte>, stride: nat, strideC: nat, w: nat, h: nat): Picture
    requires Yv12Fits(|y|, |cb|, |cr|, stride, strideC, w, h)
  {
    Picture(Visible(y, stride, w, h), Visible(cb, strideC, w / 2, h / 2), Visible(cr, strideC, w / 2, h / 2))
  }

  /** NV21: pairs of Cr and Cb, in rows of the luma stride. */
  ghost function ReadNv21(y: seq<byte>, crcb: seq<byte>, stride: nat, w: nat, h: nat): Picture
    requires RowsFit(|y|, stride, w, h) && RowsFit(|crcb|, stride, 2 * (w / 2), h / 2)
  {
    var pairs := Visible(crcb, stride, 2 * (w / 2), h / 2);
    Picture(Visible(y, stride, w, h), SecondsOfRows(pairs), FirstsOfRows(pairs))
  }

  /** The buffer cscYV12ToNV21 leaves, with its two planes at yAt and cAt. */
  ghost function AsNv21(dst: seq<byte>, yAt: nat, cAt: nat, ds: nat, p: Picture, w: nat, h: nat): (r: seq<byte>)
    requires PictureFits(p, w, h) && yAt <= |dst| && cAt <= |dst|
    requires RowsFit(|dst| - yAt, ds, w, h) && RowsFit(|dst| - cAt, ds, 2 * (w / 2), h / 2)
    ensures |r| == |dst|
  {
    StoredAt(StoredAt(dst, yAt, ds, w, p.y), cAt, ds, 2 * (w / 2), InterleavedRows(p.cr, p.cb, w / 2))
  }

  ghost predicate PictureFits(p: Picture, w: nat, h: nat) {
    && |p.y| == h && Wide(p.y, w)
    && |p.cb| == |p.cr| == h / 2 && Wide(p.cb, w / 2) && Wide(p.cr, w / 2)
  }

  /** Converting to NV21 keeps the picture, whatever the destination held, if its planes do not overlap. */
  lemma Nv21KeepsThePicture(p: Picture, dst: seq<byte>, yAt: nat, cAt: nat, ds: nat, w: nat, h: nat)
    requires PictureFits(p, w, h) && w <= ds && yAt <= |dst| && cAt <= |dst|
    requires RowsFit(|dst| - yAt, ds, w, h) && RowsFit(|dst| - cAt, ds, 2 * (w / 2), h / 2)
    requires (yAt <= cAt && RowsFit(cAt - yAt, ds, w, h)) || (cAt <= yAt && RowsFit(yAt - cAt, ds, 2 * (w / 2), h / 2))
    ensures var r := AsNv21(dst, yAt, cAt, ds, p, w, h); ReadNv21(r[yAt..], r[cAt..], ds, w, h) == p
  {
    hide Stored, Visible, InterleavedRows, PlaneSize, FirstsOfRows, SecondsOfRows, RowsFit;
    var pairs := InterleavedRows(p.cr, p.cb, w / 2);
    var s := StoredAt(dst, yAt, ds, w, p.y);
    var r := StoredAt(s, cAt, ds, 2 * (w / 2), pairs);
    assert s[yAt..] == Stored(dst[yAt..], ds, w, p.y) && r[cAt..] == Stored(s[cAt..], ds, 2 * (w / 2), pairs);
    StoredVisible(dst[yAt..], ds, w, p.y);
    StoredVisible(s[cAt..], ds, 2 * (w / 2), pairs);
    if yAt <= cAt && RowsFit(cAt - yAt, ds, w, h) {
      assert r[yAt..][..cAt - yAt] == r[..cAt][yAt..] == s[..cAt][yAt..] == s[yAt..][..cAt - yAt];
      VisiblePrefix(s[yAt..], r[yAt..], cAt - yAt, ds, w, h);
    } else {
      StoredEnds(s[cAt..], ds, 2 * (w / 2), pairs, yAt - cAt);
      assert r[yAt..] == r[cAt..][yAt - cAt..] == s[cAt..][yAt - cAt..] == s[yAt..];
    }
    SeparatedRows(p.cr, p.cb, w / 2);
  }

  lemma {:induction false} VisibleAt(s: seq<byte>, stride: nat, w: nat, n: nat, r: nat, c: nat)
    requires RowsFit(|s|, stride, w, n) && r < n && c < w
    ensures At(stride, r, c) < |s| && Visible(s, stride, w, n)[r][c] == s[At(stride, r, c)]
  {
    FewerRowsFit(|s|, stride, w, n, n - 1);
    if r < n - 1 {
      VisibleAt(s, stride, w, n - 1, r, c);
    }
  }

  lemma {:induction false} PartsAt(rows: Rows, w: nat, r: nat, c: nat)
    requires r < |rows| && Wide(rows, 2 * w) && c < w
    ensures |FirstsOfRows(rows)| == |SecondsOfRows(rows)| == |rows|
    ensures |FirstsOfRows(rows)[r]| == |SecondsOfRows(rows)[r]| == w
    ensures FirstsOfRows(rows)[r][c] == rows[r][2 * c] && SecondsOfRows(rows)[r][c] == rows[r][2 * c + 1]
  {
    hide Firsts, Seconds;
    var n := |rows| - 1;
    if r < n {
      PartsAt(rows[..n], w, r, c);
    } else {
      PairsAt(rows[r], c);
      PartsLength(rows[..n]);
    }
  }

  lemma {:induction false} PartsLength(rows: Rows)
    ensures |FirstsOfRows(rows)| == |SecondsOfRows(rows)| == |rows|
  {
    if rows != [] {
      PartsLength(rows[..|rows| - 1]);
    }
  }

  /**
   Byte for byte: the destination's luma is the source's, and its chroma rows hold Cr at even and Cb at
   odd columns, from the places where the source has them.
   */
  lemma Nv21Bytes(src: seq<byte>, srcY: nat, srcCb: nat, srcCr: nat, ss: nat, dst: seq<byte>, yAt: nat, cAt: nat, ds: nat,
                  w: nat, h: nat, r: nat, c: nat)
    requires srcY <= |src| && srcCb <= |src| && srcCr <= |src|
    requires Yv12Fits(|src| - srcY, |src| - srcCb, |src| - srcCr, ss, ss / 2, w, h)
    requires w <= ds && yAt <= |dst| && cAt <= |dst|
    requires RowsFit(|dst| - yAt, ds, w, h) && RowsFit(|dst| - cAt, ds, 2 * (w / 2), h / 2)
    requires (yAt <= cAt && RowsFit(cAt - yAt, ds, w, h)) || (cAt <= yAt && RowsFit(yAt - cAt, ds, 2 * (w / 2), h / 2))
    ensures var p := ReadYv12(src[srcY..], src[srcCb..], src[srcCr..], ss, ss / 2, w, h);
            var t := AsNv21(dst, yAt, cAt, ds, p, w, h);
            && (r < h && c < w ==>
                  && yAt + At(ds, r, c) < |t| && srcY + At(ss, r, c) < |src|
                  && t[yAt + At(ds, r, c)] == src[srcY + At(ss, r, c)])
            && (r < h / 2 && c < w / 2 ==>
                  && cAt + At(ds, r, 2 * c) + 1 < |t|
                  && srcCr + At(ss / 2, r, c) < |src| && srcCb + At(ss / 2, r, c) < |src|
                  && t[cAt + At(ds, r, 2 * c)] == src[srcCr + At(ss / 2, r, c)]
                  && t[cAt + At(ds, r, 2 * c) + 1] == src[srcCb + At(ss / 2, r, c)])
  {
    hide Stored, Visible, InterleavedRows, PlaneSize, FirstsOfRows, SecondsOfRows, RowsFit, AsNv21;
    var y, cb, cr := src[srcY..], src[srcCb..], src[srcCr..];
    var p := ReadYv12(y, cb, cr, ss, ss / 2, w, h);
    var t := AsNv21(dst, yAt, cAt, ds, p, w, h);
    Nv21KeepsThePicture(p, dst, yAt, cAt, ds, w, h);
    if r < h && c < w {
      VisibleAt(y, ss, w, h, r, c);
      VisibleAt(t[yAt..], ds, w, h, r, c);
    }
    if r < h / 2 && c < w / 2 {
      VisibleAt(cb, ss / 2, w / 2, h / 2, r, c);
      VisibleAt(cr, ss / 2, w / 2, h / 2, r, c);
      VisibleAt(t[cAt..], ds, 2 * (w / 2), h / 2, r, 2 * c);
      VisibleAt(t[cAt..], ds, 2 * (w / 2), h / 2, r, 2 * c + 1);
      PartsAt(Visible(t[cAt..], ds, 2 * (w / 2), h / 2), w / 2, r, c);
    }
  }

  /** What lies past the last row is untouched. */
  lemma StoredEnds(dst: seq<byte>, stride: nat, w: nat, rows: Rows, e: nat)
    requires Wide(rows, w) && e <= |dst| && RowsFit(e, stride, w, |rows|) && RowsFit(|dst|, stride, w, |rows|)
    ensures Stored(dst, stride, w, rows)[e..] == dst[e..]
  {
    forall k | e <= k < |dst|
      ensures Stored(dst, stride, w, rows)[k] == dst[k]
    {
      forall r | 0 <= r < |rows|
        ensures !(At(stride, r, 0) <= k < At(stride, r, 0) + w)
      {
        FewerRowsFit(e, stride, w, |rows|, r + 1);
      }
      StoredPadding(dst, stride, w, rows, k);
    }
  }

  /** One chroma row: the inner loop of cscYV12ToNV21. */
  method InterleaveRow(dst: array<byte>, pdst: nat, srcCr: array<byte>, pcr: nat, srcCb: array<byte>, pcb: nat, n: nat)
    requires dst != srcCr && dst != srcCb
    requires pdst + 2 * n <= dst.Length && pcr + n <= srcCr.Length && pcb + n <= srcCb.Length
    modifies dst
    ensures dst[..] == Overwrite(old(dst[..]), pdst, Interleave(srcCr[pcr..pcr + n], srcCb[pcb..pcb + n]))
  {
    hide Overwrite;
    OverwriteNothing(dst[..], pdst);
    for j := 0 to n
      invariant dst[..] == Overwrite(old(dst[..]), pdst, Interleave(srcCr[pcr..pcr + j], srcCb[pcb..pcb + j]))
    {
      ghost var was := old(dst[..]);
      ghost var a, b := srcCr[pcr..pcr + j + 1], srcCb[pcb..pcb + j + 1];
      assert a[..j] == srcCr[pcr..pcr + j] && b[..j] == srcCb[pcb..pcb + j];
      ghost var done := Interleave(a[..j], b[..j]);
      OverwriteMore(was, pdst, done, a[j]);
      OverwriteMore(was, pdst, done + [a[j]], b[j]);
      assert done + [a[j]] + [b[j]] == Interleave(a, b);
      dst[pdst + 2 * j] := srcCr[pcr + j];
      dst[pdst + 2 * j + 1] := srcCb[pcb + j];
    }
  }

  lemma OverwriteNothing(s: seq<byte>, at: nat)
    requires at <= |s|
    ensures Overwrite(s, at, []) == s
  {
  }

  lemma OneMorePair(dst: seq<byte>, a: seq<byte>, b: seq<byte>, ss: nat, ds: nat, w: nat, i: nat, h: nat)
    requires i < h && RowsFit(|dst|, ds, 2 * w, h) && RowsFit(|a|, ss, w, h) && RowsFit(|b|, ss, w, h)
    ensures RowsFit(|dst|, ds, 2 * w, i + 1) && RowsFit(|a|, ss, w, i + 1) && RowsFit(|b|, ss, w, i + 1)
    ensures RowsFit(|dst|, ds, 2 * w, i) && RowsFit(|a|, ss, w, i) && RowsFit(|b|, ss, w, i)
    ensures Stored(dst, ds, 2 * w, InterleavedRows(Visible(a, ss, w, i + 1), Visible(b, ss, w, i + 1), w)) ==
      Overwrite(Stored(dst, ds, 2 * w, InterleavedRows(Visible(a, ss, w, i), Visible(b, ss, w, i), w)),
                At(ds, i, 0), Interleave(Row(a, ss, w, i), Row(b, ss, w, i)))
  {
    hide Overwrite, PlaneSize, Interleave, Stored;
    FewerRowsFit(|dst|, ds, 2 * w, h, i + 1);
    FewerRowsFit(|a|, ss, w, h, i + 1);
    FewerRowsFit(|b|, ss, w, h, i + 1);
    FewerRowsFit(|a|, ss, w, h, i);
    FewerRowsFit(|b|, ss, w, h, i);
    var ra, rb := Row(a, ss, w, i), Row(b, ss, w, i);
    MoreInterleavedRows(Visible(a, ss, w, i), Visible(b, ss, w, i), ra, rb, w);
    StoredMore(dst, ds, 2 * w, InterleavedRows(Visible(a, ss, w, i), Visible(b, ss, w, i), w), Interleave(ra, rb));
  }

  lemma NoPairs(dst: seq<byte>, base: nat, a: seq<byte>, b: seq<byte>, ss: nat, ds: nat, w: nat)
    requires base <= |dst|
    ensures StoredAt(dst, base, ds, 2 * w, InterleavedRows(Visible(a, ss, w, 0), Visible(b, ss, w, 0), w)) == dst
  {
  }

  /** The chroma loop of cscYV12ToNV21. */
  method InterleaveRows(src: array<byte>, srcCb: nat, srcCr: nat, dst: array<byte>, dstCrCb: nat,
                        ss: nat, ds: nat, w: nat, h: nat)
    requires dst != src && dstCrCb <= dst.Length && srcCb <= src.Length && srcCr <= src.Length
    requires RowsFit(dst.Length - dstCrCb, ds, 2 * w, h)
    requires RowsFit(src.Length - srcCb, ss, w, h) && RowsFit(src.Length - srcCr, ss, w, h)
    modifies dst
    ensures dst[..] == StoredAt(old(dst[..]), dstCrCb, ds, 2 * w,
                                InterleavedRows(Visible(src[srcCr..], ss, w, h), Visible(src[srcCb..], ss, w, h), w))
  {
    hide Overwrite, PlaneSize, Interleave, InterleavedRows, Stored, Visible, Row;
    ghost var s, a, b := dst[..], src[srcCr..], src[srcCb..];
    var pcb, pcr, pdst := srcCb, srcCr, dstCrCb;
    FirstRow(ss);
    FirstRow(ds);
    NoPairs(s, dstCrCb, a, b, ss, ds, w);
    for i := 0 to h
      invariant pcb == srcCb + At(ss, i, 0) && pcr == srcCr + At(ss, i, 0) && pdst == dstCrCb + At(ds, i, 0)
      invariant RowsFit(dst.Length - dstCrCb, ds, 2 * w, i)
      invariant RowsFit(src.Length - srcCb, ss, w, i) && RowsFit(src.Length - srcCr, ss, w, i)
      invariant dst[..] == StoredAt(s, dstCrCb, ds, 2 * w, InterleavedRows(Visible(a, ss, w, i), Visible(b, ss, w, i), w))
    {
      OneMorePair(s[dstCrCb..], a, b, ss, ds, w, i, h);
      OverwriteFrom(s, dstCrCb, At(ds, i, 0), Interleave(Row(a, ss, w, i), Row(b, ss, w, i)),
                    Stored(s[dstCrCb..], ds, 2 * w, InterleavedRows(Visible(a, ss, w, i), Visible(b, ss, w, i), w)));
      RowFrom(src[..], srcCr, ss, w, i);
      RowFrom(src[..], srcCb, ss, w, i);
      InterleaveRow(dst, pdst, src, pcr, src, pcb, w);
      NextRow(ss, i);
      NextRow(ds, i);
      pcb := pcb + ss;
      pcr := pcr + ss;
      pdst := pdst + ds;
    }
  }

  lemma MoreInterleavedRows(a: Rows, b: Rows, ra: seq<byte>, rb: seq<byte>, w: nat)
    requires |a| == |b| && Wide(a, w) && Wide(b, w) && |ra| == |rb| == w
    ensures Wide(a + [ra], w) && Wide(b + [rb], w)
    ensures InterleavedRows(a + [ra], b + [rb], w) == InterleavedRows(a, b, w) + [Interleave(ra, rb)]
  {
    assert (a + [ra])[..|a|] == a && (b + [rb])[..|b|] == b;
  }

  /** cscYV12ToNV21: pointers are indices into the source's and the destination's memory. */
  method CscYV12ToNV21(src: array<byte>, srcY: nat, srcCb: nat, srcCr: nat, dst: array<byte>, dstY: nat, dstCrCb: nat,
                       srcStride: nat, dstStride: nat, width: nat, height: nat)
    requires src != dst && srcY <= src.Length && srcCb <= src.Length && srcCr <= src.Length
    requires Yv12Fits(src.Length - srcY, src.Length - srcCb, src.Length - srcCr, srcStride, srcStride / 2, width, height)
    requires dstY <= dst.Length && RowsFit(dst.Length - dstY, dstStride, width, height)
    requires dstCrCb <= dst.Length && RowsFit(dst.Length - dstCrCb, dstStride, 2 * (width / 2), height / 2)
    modifies dst
    ensures dst[..] == AsNv21(old(dst[..]), dstY, dstCrCb, dstStride,
                              ReadYv12(src[srcY..], src[srcCb..], src[srcCr..], srcStride, srcStride / 2, width, height),
                              width, height)
  {
    hide Stored, Visible, InterleavedRows, RowsFit;
    CopyRows(src, srcY, dst, dstY, srcStride, dstStride, width, height);
    InterleaveRows(src, srcCb, srcCr, dst, dstCrCb, srcStride / 2, dstStride, width / 2, height / 2);
  }

  /** The luma plane cscYV12ToYV12 leaves: one bulk copy when the strides agree. */
  ghost function CopiedLuma(dst: seq<byte>, src: seq<byte>, ss: nat, ds: nat, w: nat, h: nat): (r: seq<byte>)
    requires RowsFit(|dst|, ds, w, h) && RowsFit(|src|, ss, w, h)
    requires ss == ds ==> PlaneSize(ss, h) <= |src| && PlaneSize(ss, h) <= |dst|
    ensures |r| == |dst|
  {
    if ss == ds then Overwrite(dst, 0, src[..PlaneSize(ss, h)]) else Stored(dst, ds, w, Visible(src, ss, w, h))
  }

  /** Both ways show the source's rows. */
  lemma LumaPathsAgree(dst: seq<byte>, src: seq<byte>, ss: nat, ds: nat, w: nat, h: nat)
    requires RowsFit(|dst|, ds, w, h) && RowsFit(|src|, ss, w, h) && w <= ds
    requires ss == ds ==> PlaneSize(ss, h) <= |src| && PlaneSize(ss, h) <= |dst|
    ensures Visible(CopiedLuma(dst, src, ss, ds, w, h), ds, w, h) == Visible(src, ss, w, h)
    ensures Visible(Stored(dst, ds, w, Visible(src, ss, w, h)), ds, w, h) == Visible(src, ss, w, h)
  {
    hide PlaneSize;
    StoredVisible(dst, ds, w, Visible(src, ss, w, h));
    if ss == ds {
      PlaneRowsFit(PlaneSize(ss, h), ss, w, h);
      VisiblePrefix(CopiedLuma(dst, src, ss, ds, w, h), src, PlaneSize(ss, h), ss, w, h);
    }
  }

  /** cscYV12ToYV12. */
  method CscYV12ToYV12(srcY: array<byte>, srcU: array<byte>, srcV: array<byte>,
                       dstY: array<byte>, dstU: array<byte>, dstV: array<byte>,
                       srcStride: nat, dstStrideY: nat, dstStrideUV: nat, width: nat, height: nat)
    requires dstY != dstU && dstU != dstV && dstV != dstY && {dstY, dstU, dstV} !! {srcY, srcU, srcV}
    requires Yv12Fits(srcY.Length, srcU.Length, srcV.Length, srcStride, srcStride / 2, width, height)
    requires Yv12Fits(dstY.Length, dstU.Length, dstV.Length, dstStrideY, dstStrideUV, width, height)
    requires srcStride == dstStrideY ==>
               PlaneSize(srcStride, height) <= srcY.Length && PlaneSize(srcStride, height) <= dstY.Length
    modifies dstY, dstU, dstV
    ensures var p := ReadYv12(srcY[..], srcU[..], srcV[..], srcStride, srcStride / 2, width, height);
      dstY[..] == CopiedLuma(old(dstY[..]), srcY[..], srcStride, dstStrideY, width, height) &&
      dstU[..] == Stored(old(dstU[..]), dstStrideUV, width / 2, p.cb) &&
      dstV[..] == Stored(old(dstV[..]), dstStrideUV, width / 2, p.cr) &&
      (width <= dstStrideY && width / 2 <= dstStrideUV ==>
        ReadYv12(dstY[..], dstU[..], dstV[..], dstStrideY, dstStrideUV, width, height) == p)
  {
    hide Stored, Visible, RowsFit, Overwrite, PlaneSize;
    ghost var p := ReadYv12(srcY[..], srcU[..], srcV[..], srcStride, srcStride / 2, width, height);
    if width <= dstStrideY && width / 2 <= dstStrideUV {
      LumaPathsAgree(dstY[..], srcY[..], srcStride, dstStrideY, width, height);
      StoredVisible(dstU[..], dstStrideUV, width / 2, p.cb);
      StoredVisible(dstV[..], dstStrideUV, width / 2, p.cr);
    }
    if srcStride == dstStrideY {
      MemCopy(dstY, 0, srcY, 0, PlaneSize(srcStride, height));
    } else {
      CopyRows(srcY, 0, dstY, 0, srcStride, dstStrideY, width, height);
      assert srcY[0..] == srcY[..];
    }
    CopyTwoPlanes(srcU, srcV, dstU, dstV, srcStride / 2, dstStrideUV, width / 2, height / 2);
  }

  /** The chroma loop of cscYV12ToYV12: a row of each plane at a time. */
  method CopyTwoPlanes(srcU: array<byte>, srcV: array<byte>, dstU: array<byte>, dstV: array<byte>,
                       ss: nat, ds: nat, w: nat, h: nat)
    requires dstU != dstV && {dstU, dstV} !! {srcU, srcV}
    requires RowsFit(dstU.Length, ds, w, h) && RowsFit(dstV.Length, ds, w, h)
    requires RowsFit(srcU.Length, ss, w, h) && RowsFit(srcV.Length, ss, w, h)
    modifies dstU, dstV
    ensures dstU[..] == Stored(old(dstU[..]), ds, w, Visible(srcU[..], ss, w, h))
    ensures dstV[..] == Stored(old(dstV[..]), ds, w, Visible(srcV[..], ss, w, h))
  {
    hide Overwrite, PlaneSize, Stored, Visible, Row;
    ghost var u, v, du, dv := srcU[..], srcV[..], dstU[..], dstV[..];
    assert u[0..] == u && v[0..] == v;
    var psrc, pdst := 0, 0;
    FirstRow(ss);
    FirstRow(ds);
    NothingStored(du, ds, w, u, ss);
    NothingStored(dv, ds, w, v, ss);
    for i := 0 to h
      invariant psrc == At(ss, i, 0) && pdst == At(ds, i, 0)
      invariant RowsFit(dstU.Length, ds, w, i) && RowsFit(srcU.Length, ss, w, i)
      invariant RowsFit(dstV.Length, ds, w, i) && RowsFit(srcV.Length, ss, w, i)
      invariant dstU[..] == Stored(du, ds, w, Visible(u, ss, w, i))
      invariant dstV[..] == Stored(dv, ds, w, Visible(v, ss, w, i))
    {
      OneMoreRow(du, u, ss, ds, w, i, h);
      OneMoreRow(dv, v, ss, ds, w, i, h);
      RowFrom(u, 0, ss, w, i);
      RowFrom(v, 0, ss, w, i);
      MemCopy(dstU, pdst, srcU, psrc, w);
      MemCopy(dstV, pdst, srcV, psrc, w);
      NextRow(ss, i);
      NextRow(ds, i);
      psrc := psrc + ss;
      pdst := pdst + ds;
    }
  }
}
