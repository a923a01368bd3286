/**
 The whole TIFF structure of a picture as bytes, and the theorem that a TIFF reader
 recovers from it what the attribute record holds: exactly when, for every record
 and every thumbnail.
 */
module ExifRoundTrip {
  import opened Bytes
  import opened TiffDirectory
  import opened Options
  import opened TiffReader
  import opened ExifFormat

  ghost function GpsPart(a: ExifAttribute): seq<byte>
    requires ValidAttribute(a)
  {
    if a.enableGps then Directory(GpsFields(a), GpsAt(a), 0) else []
  }

  ghost function Ifd1Part(a: ExifAttribute, thumb: seq<byte>): seq<byte>
    requires ValidAttribute(a)
  {
    if ThumbKept(a, thumb) then Directory(Ifd1Fields(a, |thumb|), Ifd1At(a), 0) + thumb else []
  }

  /** The parts lie end to end, so no two of them share a byte and none is left over. */
  ghost function TiffImage(a: ExifAttribute, thumb: seq<byte>): seq<byte>
    requires ValidAttribute(a)
  {
    TIFF_HEADER
    + Directory(Ifd0Fields(a), IFD0_AT, NextIfd(a, thumb))
    + Directory(ExifFields(a), ExifAt(a), 0)
    + GpsPart(a)
    + Ifd1Part(a, thumb)
  }

  /** Each part of the structure is at the offset that the pointers to it give. */
  ghost predicate HasParts(img: seq<byte>, at: nat, a: ExifAttribute, thumb: seq<byte>)
    requires ValidAttribute(a)
  {
    && Holds(img, at, TIFF_HEADER)
    && Holds(img, at + IFD0_AT, Directory(Ifd0Fields(a), IFD0_AT, NextIfd(a, thumb)))
    && Holds(img, at + ExifAt(a), Directory(ExifFields(a), ExifAt(a), 0))
    && (a.enableGps ==> Holds(img, at + GpsAt(a), Directory(GpsFields(a), GpsAt(a), 0)))
    && (ThumbKept(a, thumb) ==>
          && Holds(img, at + Ifd1At(a), Directory(Ifd1Fields(a, |thumb|), Ifd1At(a), 0))
          && Holds(img, at + ThumbAt(a), thumb))
  }

  /** The structure's size, whatever directories it has: the sum of its parts' sizes. */
  lemma TiffImageSize(a: ExifAttribute, thumb: seq<byte>)
    requires ValidAttribute(a)
    ensures |TiffImage(a, thumb)| == TiffSize(a, thumb)
  {
    hide Ifd0Fields, ExifFields, GpsFields, Ifd1Fields, DirectoryEnd, ExifAt, GpsAt, Ifd1At, ThumbAt;
    Ifd0End(a);
    ExifEnd(a);
    if a.enableGps { GpsEnd(a); } else { NoGpsPart(a); }
    Ifd1End(a, |thumb|);
  }

  lemma NoGpsPart(a: ExifAttribute)
    requires ValidAttribute(a) && !a.enableGps
    ensures Ifd1At(a) == GpsAt(a)
  {
  }

  lemma Ifd1PartHeld(img: seq<byte>, a: ExifAttribute, thumb: seq<byte>)
    requires ValidAttribute(a) && ThumbKept(a, thumb) && Holds(img, Ifd1At(a), Ifd1Part(a, thumb))
    ensures Holds(img, Ifd1At(a), Directory(Ifd1Fields(a, |thumb|), Ifd1At(a), 0)) && Holds(img, ThumbAt(a), thumb)
  {
    hide Holds, Ifd1Fields, DirectoryEnd, Ifd1At, ThumbAt, Directory;
    Ifd1End(a, |thumb|);
    var d1 := Directory(Ifd1Fields(a, |thumb|), Ifd1At(a), 0);
    HoldsParts(d1, thumb);
    HoldsWithin(img, Ifd1At(a), d1 + thumb, 0, d1);
    HoldsWithin(img, Ifd1At(a), d1 + thumb, |d1|, thumb);
  }

  lemma TiffImageParts(a: ExifAttribute, thumb: seq<byte>)
    requires ValidAttribute(a)
    ensures HasParts(TiffImage(a, thumb), 0, a, thumb)
  {
    hide Holds, Ifd0Fields, ExifFields, GpsFields, Ifd1Fields, DirectoryEnd, ExifAt, GpsAt, Ifd1At, ThumbAt, Directory;
    Ifd0End(a);
    ExifEnd(a);
    if a.enableGps { GpsEnd(a); } else { NoGpsPart(a); }
    Ifd1End(a, |thumb|);
    var d0 := Directory(Ifd0Fields(a), IFD0_AT, NextIfd(a, thumb));
    var de := Directory(ExifFields(a), ExifAt(a), 0);
    var g, t := GpsPart(a), Ifd1Part(a, thumb);
    HoldsFourParts(TIFF_HEADER, d0, de, g);
    var front := TIFF_HEADER + d0 + de + g;
    HoldsParts(front, t);
    HoldsWithin(front + t, 0, front, 0, TIFF_HEADER);
    HoldsWithin(front + t, 0, front, IFD0_AT, d0);
    HoldsWithin(front + t, 0, front, ExifAt(a), de);
    HoldsWithin(front + t, 0, front, GpsAt(a), g);
    if ThumbKept(a, thumb) {
      Ifd1PartHeld(front + t, a, thumb);
    }
  }

  /** Conversely, bytes that have every part in its place are the structure. */
  lemma PartsMakeImage(img: seq<byte>, at: nat, a: ExifAttribute, thumb: seq<byte>)
    requires ValidAttribute(a) && HasParts(img, at, a, thumb)
    ensures Holds(img, at, TiffImage(a, thumb))
  {
    hide Holds, Ifd0Fields, ExifFields, GpsFields, Ifd1Fields, DirectoryEnd, ExifAt, GpsAt, Ifd1At, ThumbAt, Directory;
    Ifd0End(a);
    ExifEnd(a);
    if a.enableGps { GpsEnd(a); } else { NoGpsPart(a); }
    Ifd1End(a, |thumb|);
    var d0 := Directory(Ifd0Fields(a), IFD0_AT, NextIfd(a, thumb));
    var de := Directory(ExifFields(a), ExifAt(a), 0);
    HoldsJoin(img, at, TIFF_HEADER, d0);
    HoldsJoin(img, at, TIFF_HEADER + d0, de);
    var front := TIFF_HEADER + d0 + de;
    if a.enableGps {
      HoldsJoin(img, at, front, GpsPart(a));
    } else {
      assert front + GpsPart(a) == front;
    }
    front := front + GpsPart(a);
    if ThumbKept(a, thumb) {
      var d1 := Directory(Ifd1Fields(a, |thumb|), Ifd1At(a), 0);
      HoldsJoin(img, at, front, d1);
      HoldsJoin(img, at, front + d1, thumb);
      assert front + d1 + thumb == TiffImage(a, thumb);
    } else {
      assert front == TiffImage(a, thumb);
    }
  }

  /** What a reader gets from a structure: it takes the bytes of short values from the entry. */
  ghost function TiffAsRead(a: ExifAttribute, thumb: seq<byte>): Tiff
    requires ValidAttribute(a)
  {
    Tiff(RecordsAsRead(Ifd0Fields(a), IFD0_AT),
         Some(RecordsAsRead(ExifFields(a), ExifAt(a))),
         if a.enableGps then Some(RecordsAsRead(GpsFields(a), GpsAt(a))) else None,
         if ThumbKept(a, thumb) then Some((RecordsAsRead(Ifd1Fields(a, |thumb|), Ifd1At(a)), thumb)) else None)
  }

  ghost function RecordsAsRead(fs: seq<Field>, at: nat): seq<Record> {
    AllAsRead(fs, |fs|, PayloadBase(at, |fs|))
  }

  /** What the writer means by the record. */
  ghost function TiffAsMeant(a: ExifAttribute, thumb: seq<byte>): Tiff
    requires ValidAttribute(a)
  {
    Tiff(AllAsMeant(Ifd0Fields(a)),
         Some(AllAsMeant(ExifFields(a))),
         if a.enableGps then Some(AllAsMeant(GpsFields(a))) else None,
         if ThumbKept(a, thumb) then Some((AllAsMeant(Ifd1Fields(a, |thumb|)), thumb)) else None)
  }

  lemma OffsetsAreSmall(a: ExifAttribute)
    requires ValidAttribute(a)
    ensures 0 < ExifAt(a) < GpsAt(a) <= Ifd1At(a) < ThumbAt(a) < 1500
  {
    hide StrLen;
  }

  lemma Ifd0Pointers(a: ExifAttribute)
    requires ValidAttribute(a)
    ensures var fs := Ifd0Fields(a);
            && fs[8] == Long(0x8769, ExifAt(a)) && (forall i :: 0 <= i < 8 ==> fs[i].tag < 0x8769)
            && (if a.enableGps then fs[9] == Long(0x8825, GpsAt(a)) && forall i :: 0 <= i < 9 ==> fs[i].tag < 0x8825
                else forall i :: 0 <= i < |fs| ==> fs[i].tag < 0x8825)
  {
    hide StrLen, ExifAt, GpsAt, CString;
  }

  lemma Ifd1Pointers(a: ExifAttribute, thumbSize: nat)
    requires ValidAttribute(a)
    ensures var fs := Ifd1Fields(a, thumbSize);
            && fs[7] == Long(0x0201, ThumbAt(a)) && fs[8] == Long(0x0202, thumbSize)
            && forall i :: 0 <= i < 7 ==> fs[i].tag < 0x0201
  {
    hide StrLen, ThumbAt;
  }

  lemma ReadThumbnailBack(img: seq<byte>, a: ExifAttribute, thumb: seq<byte>)
    requires ValidAttribute(a) && |thumb| <= EXIF_LIMIT_SIZE && Holds(img, ThumbAt(a), thumb)
    ensures ReadThumbnail(img, RecordsAsRead(Ifd1Fields(a, |thumb|), Ifd1At(a))) == Some(thumb)
  {
    hide Holds, AllAsRead, Payloads, Find, Ifd1Fields, ThumbAt, Le32, FromLe32;
    OffsetsAreSmall(a);
    var fs, base := Ifd1Fields(a, |thumb|), PayloadBase(Ifd1At(a), IFD1_COUNT);
    Ifd1Pointers(a, |thumb|);
    FindField(fs, base, 7);
    FindField(fs, base, 8);
    Le32RoundTrip(ThumbAt(a));
    Le32RoundTrip(|thumb|);
    assert Le32(ThumbAt(a))[..4] == Le32(ThumbAt(a)) && Le32(|thumb|)[..4] == Le32(|thumb|);
    HoldsSlice(img, ThumbAt(a), thumb);
  }

  /** A reader that follows the pointers finds every directory, every record and the thumbnail. */
  lemma ReadTiffBack(img: seq<byte>, a: ExifAttribute, thumb: seq<byte>)
    requires ValidAttribute(a) && HasParts(img, 0, a, thumb)
    ensures ReadTiff(img) == Some(TiffAsRead(a, thumb))
  {
    hide Holds, AllAsRead, ReadDirectory, Directory, DirectoryEnd, Ifd0Fields, ExifFields, GpsFields, Ifd1Fields,
         ExifAt, GpsAt, Ifd1At, ThumbAt, Follow, ReadThumbnail;
    OffsetsAreSmall(a);
    Ifd0End(a);
    ExifEnd(a);
    Ifd1End(a, |thumb|);
    var fs, base := Ifd0Fields(a), PayloadBase(IFD0_AT, Ifd0Count(a));
    assert img[..4] == TIFF_HEADER[..4] && img[4..8] == TIFF_HEADER[4..8] by { HoldsSlice(img, 0, TIFF_HEADER); }
    ReadDirectoryBack(img, IFD0_AT, fs, NextIfd(a, thumb));
    Ifd0Pointers(a);
    FollowField(img, fs, base, 8, ExifAt(a), ExifFields(a), 0);
    if a.enableGps {
      GpsEnd(a);
      FollowField(img, fs, base, 9, GpsAt(a), GpsFields(a), 0);
    } else {
      FindNoField(fs, base, 0x8825);
      FollowNothing(img, AllAsRead(fs, |fs|, base), 0x8825);
    }
    if ThumbKept(a, thumb) {
      ReadDirectoryBack(img, Ifd1At(a), Ifd1Fields(a, |thumb|), 0);
      ReadThumbnailBack(img, a, thumb);
    }
  }

  lemma FollowNothing(img: seq<byte>, records: seq<Record>, tag: nat)
    requires Find(records, tag) == None
    ensures Follow(img, records, tag) == Some(None)
  {
  }

  function MakerAt(a: ExifAttribute): nat { PayloadBase(IFD0_AT, Ifd0Count(a)) }

  function ModelAt(a: ExifAttribute): nat { MakerAt(a) + StrLen(a.maker) + 1 }

  function SoftwareAt(a: ExifAttribute): nat { ModelAt(a) + StrLen(a.model) + 1 }

  /**
   A string of at least four characters is read back. A shorter one is stored out of line all
   the same, so a reader takes the offset's bytes for it; they agree only when it is one character
   that happens to equal the offset.
   */
  predicate Recoverable(s: seq<byte>, offset: nat) {
    StrLen(s) >= 4 || (StrLen(s) == 1 && s[0] == offset)
  }

  /** A small offset's bytes look like a short C string in one case only. */
  lemma OffsetLooksLikeText(text: seq<byte>, offset: byte)
    requires 0 < |text| <= 4 && text[|text| - 1] == 0 && offset != 0
    requires forall i :: 0 <= i < |text| - 1 ==> text[i] != 0
    ensures [offset, 0, 0, 0][..|text|] == text <==> |text| == 2 && text[0] == offset
  {
    var read: seq<byte> := [offset, 0, 0, 0];
    if |text| == 2 {
      assert read[..2] == [offset, 0];
    } else if |text| == 1 {
      assert read[..1][0] != text[0];
    } else {
      assert read[..|text|][1] != text[1];
    }
  }

  lemma SmallLe32(v: byte)
    ensures Le32(v) == [v, 0, 0, 0]
  {
  }

  lemma ShortTextRecovered(s: seq<byte>, offset: nat)
    requires StrLen(s) < |s| && StrLen(s) < 4 && 0 < offset < 256
    ensures Le32(offset)[..StrLen(s) + 1] == CString(s) <==> StrLen(s) == 1 && s[0] == offset
  {
    hide StrLen, Le32, CString;
    var text := CString(s);
    SmallLe32(offset);
    OffsetLooksLikeText(text, offset);
    assert |text| == StrLen(s) + 1 && text[0] == s[0];
  }

  lemma TextRecovered(tag: Word16, s: seq<byte>, offset: nat)
    requires StrLen(s) < |s| <= 1000 && 0 < offset < 256
    ensures AsRead(Text(tag, s), offset) == AsMeant(Text(tag, s)) <==> Recoverable(s, offset)
  {
    hide StrLen, Le32, CString;
    TextParts(tag, s);
    hide Text;
    if StrLen(s) < 4 {
      ShortTextRecovered(s, offset);
    } else {
      FieldRecovered(Text(tag, s), offset);
    }
  }

  lemma TextParts(tag: Word16, s: seq<byte>)
    requires StrLen(s) < |s| <= 1000
    ensures var f := Text(tag, s);
            f.outOfLine && f.data == CString(s) && ValueSize(f) == StrLen(s) + 1
            && f.data[..ValueSize(f)] == CString(s)
  {
    hide StrLen, CString;
    assert CString(s)[..|CString(s)|] == CString(s);
  }

  lemma AllRecovered(fs: seq<Field>, base: nat)
    ensures AllAsRead(fs, |fs|, base) == AllAsMeant(fs)
       <==> forall i :: 0 <= i < |fs| ==> AsRead(fs[i], base + |Payloads(fs, i)|) == AsMeant(fs[i])
  {
    hide AllAsRead, AsRead, AsMeant, Payloads;
    var read, meant := AllAsRead(fs, |fs|, base), AllAsMeant(fs);
    forall i | 0 <= i < |fs|
      ensures read[i] == AsRead(fs[i], base + |Payloads(fs, i)|) && meant[i] == AsMeant(fs[i])
    {
      AllAsReadAt(fs, |fs|, base, i);
    }
  }

  lemma FieldRecovered(f: Field, offset: nat)
    requires StoredByTheRule(f)
    ensures AsRead(f, offset) == AsMeant(f)
  {
  }

  /** Fields stored by the rule are all read back, wherever the directory is. */
  lemma DirectoryRecovered(fs: seq<Field>, at: nat)
    requires forall i :: 0 <= i < |fs| ==> StoredByTheRule(fs[i])
    ensures RecordsAsRead(fs, at) == AllAsMeant(fs)
  {
    hide Payloads, AllAsRead, AsRead, AsMeant, StoredByTheRule;
    var base := PayloadBase(at, |fs|);
    forall i | 0 <= i < |fs|
      ensures AsRead(fs[i], base + |Payloads(fs, i)|) == AsMeant(fs[i])
    {
      FieldRecovered(fs[i], base + |Payloads(fs, i)|);
    }
    AllRecovered(fs, base);
  }

  lemma LaterDirectoriesRecovered(a: ExifAttribute, thumbSize: nat)
    requires ValidAttribute(a)
    ensures RecordsAsRead(ExifFields(a), ExifAt(a)) == AllAsMeant(ExifFields(a))
    ensures RecordsAsRead(GpsFields(a), GpsAt(a)) == AllAsMeant(GpsFields(a))
    ensures RecordsAsRead(Ifd1Fields(a, thumbSize), Ifd1At(a)) == AllAsMeant(Ifd1Fields(a, thumbSize))
  {
    hide StrLen, Le32, Short, Long, Byte, Inline, OutOfLine, Text, Rationals, StoredByTheRule,
         RecordsAsRead, AllAsMeant, ExifAt, GpsAt, Ifd1At, ThumbAt;
    DirectoryRecovered(ExifFields(a), ExifAt(a));
    DirectoryRecovered(GpsFields(a), GpsAt(a));
    DirectoryRecovered(Ifd1Fields(a, thumbSize), Ifd1At(a));
  }

  lemma NumbersRecovered(a: ExifAttribute)
    requires ValidAttribute(a)
    ensures var fs := Ifd0Fields(a);
            forall i :: 0 <= i < |fs| && i != 2 && i != 3 && i != 5 ==>
              AsRead(fs[i], MakerAt(a) + |Payloads(fs, i)|) == AsMeant(fs[i])
  {
    hide StrLen, Le32, Short, Long, Byte, OutOfLine, Text, StoredByTheRule, AsRead, AsMeant, ExifAt, GpsAt,
         Payload, Payloads, CString;
    var fs := Ifd0Fields(a);
    forall i | 0 <= i < |fs| && i != 2 && i != 3 && i != 5
      ensures AsRead(fs[i], MakerAt(a) + |Payloads(fs, i)|) == AsMeant(fs[i])
    {
      FieldRecovered(fs[i], MakerAt(a) + |Payloads(fs, i)|);
    }
  }

  /** Where the three strings' values are. */
  lemma TextOffsets(a: ExifAttribute)
    requires ValidAttribute(a)
    ensures var fs := Ifd0Fields(a);
            && MakerAt(a) + |Payloads(fs, 2)| == MakerAt(a)
            && MakerAt(a) + |Payloads(fs, 3)| == ModelAt(a)
            && MakerAt(a) + |Payloads(fs, 5)| == SoftwareAt(a)
  {
    hide StrLen, Le32, Short, Long, OutOfLine, Text, StoredByTheRule, ExifAt, GpsAt, Payload, CString;
    var fs := Ifd0Fields(a);
    assert |Payloads(fs, 1)| == 0;
    assert |Payloads(fs, 2)| == 0;
    assert |Payloads(fs, 3)| == StrLen(a.maker) + 1;
    assert |Payloads(fs, 5)| == |Payloads(fs, 3)| + StrLen(a.model) + 1;
  }

  lemma OffsetsInAByte(a: ExifAttribute)
    requires ValidAttribute(a)
    ensures 0 < MakerAt(a) < ModelAt(a) < SoftwareAt(a) < 256
  {
    hide StrLen;
  }

  lemma TextsRecovered(a: ExifAttribute)
    requires ValidAttribute(a)
    ensures var fs := Ifd0Fields(a);
            && (AsRead(fs[2], MakerAt(a)) == AsMeant(fs[2]) <==> Recoverable(a.maker, MakerAt(a)))
            && (AsRead(fs[3], ModelAt(a)) == AsMeant(fs[3]) <==> Recoverable(a.model, ModelAt(a)))
            && (AsRead(fs[5], SoftwareAt(a)) == AsMeant(fs[5]) <==> Recoverable(a.software, SoftwareAt(a)))
  {
    hide StrLen, Le32, Short, Long, OutOfLine, Text, Recoverable, AsRead, AsMeant, ExifAt, GpsAt, Payload, CString,
         MakerAt, ModelAt, SoftwareAt;
    OffsetsInAByte(a);
    TextRecovered(0x010F, a.maker, MakerAt(a));
    TextRecovered(0x0110, a.model, ModelAt(a));
    TextRecovered(0x0131, a.software, SoftwareAt(a));
  }

  /** The three strings of the 0th directory are the only fields a reader can miss. */
  lemma Ifd0Recovered(a: ExifAttribute)
    requires ValidAttribute(a)
    ensures RecordsAsRead(Ifd0Fields(a), IFD0_AT) == AllAsMeant(Ifd0Fields(a))
       <==> && Recoverable(a.maker, MakerAt(a))
            && Recoverable(a.model, ModelAt(a))
            && Recoverable(a.software, SoftwareAt(a))
  {
    hide StrLen, Ifd0Fields, AllAsMeant, Recoverable, AllAsRead, AsRead, AsMeant, Payloads, ModelAt, SoftwareAt;
    TextOffsets(a);
    TextsRecovered(a);
    NumbersRecovered(a);
    AllRecovered(Ifd0Fields(a), MakerAt(a));
  }

  /**
   A TIFF reader gets exactly what the writer means, for every attribute record and thumbnail,
   if and only if the maker, model and software strings are recoverable.
   */
  lemma ReadTiffMeaning(a: ExifAttribute, thumb: seq<byte>)
    requires ValidAttribute(a)
    ensures ReadTiff(TiffImage(a, thumb)) == Some(TiffAsMeant(a, thumb))
       <==> && Recoverable(a.maker, MakerAt(a))
            && Recoverable(a.model, ModelAt(a))
            && Recoverable(a.software, SoftwareAt(a))
  {
    hide ReadTiff, TiffImage, RecordsAsRead, AllAsMeant, Recoverable, Ifd0Fields, ExifFields, GpsFields, Ifd1Fields,
         ExifAt, GpsAt, Ifd1At, ThumbAt, MakerAt, ModelAt, SoftwareAt;
    TiffImageParts(a, thumb);
    ReadTiffBack(TiffImage(a, thumb), a, thumb);
    Ifd0Recovered(a);
    LaterDirectoriesRecovered(a, |thumb|);
  }

  function Zeros(n: nat): (z: seq<byte>)
    ensures |z| == n && forall i :: 0 <= i < n ==> z[i] == 0
  {
    seq(n, _ => 0)
  }

  /** A record with nothing but a maker's name of two characters. */
  function ShortMaker(c: byte, d: byte): ExifAttribute {
    var r, rs := Rational(0, 1), [Rational(0, 1), Rational(0, 1), Rational(0, 1)];
    ExifAttribute(
      false, true, [c, d] + Zeros(30), Zeros(32), Zeros(32),
      Zeros(4), Zeros(20), Zeros(150),
      0, 0, 0, 0,
      0, 0, 0, 0,
      0, 0, 0, 0,
      0, 0,
      r, r, 0, 0,
      r, r, r, r,
      r, r, r, r,
      Zeros(4), Zeros(100),
      Zeros(2), Zeros(2), 0,
      rs, rs, r,
      rs, Zeros(11))
  }

  lemma NoText(s: seq<byte>)
    requires s != [] && s[0] == 0
    ensures StrLen(s) == 0
  {
  }

  lemma ShortMakerIsValid(c: byte, d: byte)
    requires c != 0 && d != 0
    ensures ValidAttribute(ShortMaker(c, d)) && StrLen(ShortMaker(c, d).maker) == 2
  {
    NoText(Zeros(32));
    NoText(Zeros(150));
    var m := [c, d] + Zeros(30);
    assert m[1..][0] == d && m[1..][1..][0] == 0;
    NoText(m[1..][1..]);
    assert StrLen(m[1..]) == 1 && StrLen(m) == 2;
  }

  /** "LG" is lost: a reader of that record's structure does not get what was meant. */
  lemma ShortMakerIsLost(thumb: seq<byte>)
    ensures ValidAttribute(ShortMaker(0x4C, 0x47))
    ensures ReadTiff(TiffImage(ShortMaker(0x4C, 0x47), thumb)) != Some(TiffAsMeant(ShortMaker(0x4C, 0x47), thumb))
  {
    hide ReadTiff, TiffImage, TiffAsMeant, ShortMaker, ValidAttribute, MakerAt, ModelAt, SoftwareAt;
    ShortMakerIsValid(0x4C, 0x47);
    ReadTiffMeaning(ShortMaker(0x4C, 0x47), thumb);
  }

  /** The same for a reader that is handed the structure inside a larger buffer. */
  lemma ReadTiffInBuffer(buf: seq<byte>, at: nat, a: ExifAttribute, thumb: seq<byte>)
    requires ValidAttribute(a) && Holds(buf, at, TiffImage(a, thumb))
    ensures at + TiffSize(a, thumb) <= |buf|
    ensures ReadTiff(buf[at..at + TiffSize(a, thumb)]) == Some(TiffAsMeant(a, thumb))
       <==> && Recoverable(a.maker, MakerAt(a))
            && Recoverable(a.model, ModelAt(a))
            && Recoverable(a.software, SoftwareAt(a))
  {
    hide ReadTiff, TiffImage, TiffAsMeant, Recoverable, MakerAt, ModelAt, SoftwareAt, TiffSize;
    TiffImageSize(a, thumb);
    HoldsSlice(buf, at, TiffImage(a, thumb));
    ReadTiffMeaning(a, thumb);
  }
}
