/**
 A decoder for Exif data: it looks each value up by the tag that sections 4.6.4 to 4.6.6 of
 Exif 2.2 give it and checks its type and count. What it finds in a picture's structure is
 what the attribute record holds.
 */
module ExifDecoder {
  import opened Bytes
  import opened Options
  import opened TiffDirectory
  import opened TiffReader
  import opened ExifFormat
  import opened ExifRoundTrip

  // The decoder: none of it knows how a picture is written.

  function LongAt(rs: seq<Record>, tag: nat): Option<nat> {
    var r :- Find(rs, tag);
    if r.typ == 4 && r.count == 1 && |r.data| == 4 then Some(FromLe32(r.data)) else None
  }

  function ShortAt(rs: seq<Record>, tag: nat): Option<nat> {
    var r :- Find(rs, tag);
    if r.typ == 3 && r.count == 1 && |r.data| == 2 then Some(FromLe16(r.data)) else None
  }

  /** Bytes of type BYTE (1), ASCII (2) or UNDEFINED (7). */
  function BytesAt(rs: seq<Record>, tag: nat, typ: nat): Option<seq<byte>> {
    var r :- Find(rs, tag);
    if r.typ == typ && r.count == |r.data| then Some(r.data) else None
  }

  /** A text is ASCII bytes that a NUL ends. */
  function TextAt(rs: seq<Record>, tag: nat): Option<seq<byte>> {
    var b :- BytesAt(rs, tag, 2);
    if b != [] && b[|b| - 1] == 0 then Some(b[..|b| - 1]) else None
  }

  function RationalOf(b: seq<byte>): Rational
    requires |b| == 8
  {
    Rational(FromLe32(b[..4]), FromLe32(b[4..]))
  }

  /** A value of type RATIONAL (5) or SRATIONAL (10), and three of them. */
  function RationalAt(rs: seq<Record>, tag: nat, typ: nat): Option<Rational> {
    var r :- Find(rs, tag);
    if r.typ == typ && r.count == 1 && |r.data| == 8 then Some(RationalOf(r.data)) else None
  }

  function ThreeRationalsAt(rs: seq<Record>, tag: nat): Option<seq<Rational>> {
    var r :- Find(rs, tag);
    if r.typ == 5 && r.count == 3 && |r.data| == 24
    then Some([RationalOf(r.data[..8]), RationalOf(r.data[8..16]), RationalOf(r.data[16..])])
    else None
  }

  // What the decoder finds in each directory.

  /** The texts are found whole under the conditions of `Recoverable`. */
  ghost predicate ZerothTells(rs: seq<Record>, a: ExifAttribute)
    requires ValidAttribute(a)
  {
    && |rs| == (if a.enableGps then 10 else 9)
    && LongAt(rs, 0x0100) == Some(a.width)
    && LongAt(rs, 0x0101) == Some(a.height)
    && (TextAt(rs, 0x010F) == Some(a.maker[..StrLen(a.maker)]) <==> Recoverable(a.maker, MakerAt(a)))
    && (TextAt(rs, 0x0110) == Some(a.model[..StrLen(a.model)]) <==> Recoverable(a.model, ModelAt(a)))
    && ShortAt(rs, 0x0112) == Some(a.orientation)
    && (TextAt(rs, 0x0131) == Some(a.software[..StrLen(a.software)]) <==> Recoverable(a.software, SoftwareAt(a)))
    && BytesAt(rs, 0x0132, 2) == Some(a.dateTime)
    && ShortAt(rs, 0x0213) == Some(a.ycbcrPositioning)
  }

  ghost predicate ExifTells(rs: seq<Record>, a: ExifAttribute)
    requires ValidAttribute(a)
  {
    && |rs| == 22
    && ExifRationalsTell(rs, a)
    && ExifNumbersTell(rs, a)
    && BytesAt(rs, 0x9000, 7) == Some(a.exifVersion)
    && BytesAt(rs, 0x9003, 2) == Some(a.dateTime)
    && BytesAt(rs, 0x9004, 2) == Some(a.dateTime)
    && BytesAt(rs, 0x9286, 7) == Some([0, 0, 0, 0x49, 0x49, 0x43, 0x53, 0x41, a.userComment[0]])
  }

  ghost predicate ExifRationalsTell(rs: seq<Record>, a: ExifAttribute) {
    && RationalAt(rs, 0x829A, 5) == Some(a.exposureTime)
    && RationalAt(rs, 0x829D, 5) == Some(a.fnumber)
    && RationalAt(rs, 0x9201, 10) == Some(a.shutterSpeed)
    && RationalAt(rs, 0x9202, 5) == Some(a.aperture)
    && RationalAt(rs, 0x9203, 10) == Some(a.brightness)
    && RationalAt(rs, 0x9204, 10) == Some(a.exposureBias)
    && RationalAt(rs, 0x9205, 5) == Some(a.maxAperture)
    && RationalAt(rs, 0x920A, 5) == Some(a.focalLength)
  }

  ghost predicate ExifNumbersTell(rs: seq<Record>, a: ExifAttribute) {
    && ShortAt(rs, 0x8822) == Some(a.exposureProgram)
    && ShortAt(rs, 0x8827) == Some(a.isoSpeedRating)
    && ShortAt(rs, 0x9207) == Some(a.meteringMode)
    && ShortAt(rs, 0x9209) == Some(a.flash)
    && ShortAt(rs, 0xA001) == Some(a.colorSpace)
    && LongAt(rs, 0xA002) == Some(a.width)
    && LongAt(rs, 0xA003) == Some(a.height)
    && LongAt(rs, 0xA402) == Some(a.exposureMode)
    && LongAt(rs, 0xA403) == Some(a.whiteBalance)
    && LongAt(rs, 0xA406) == Some(a.sceneCaptureType)
  }

  ghost predicate GpsTells(rs: seq<Record>, a: ExifAttribute)
    requires ValidAttribute(a)
  {
    && |rs| == (if a.gpsProcessingMethod[0] != 0 then 10 else 9)
    && BytesAt(rs, 0x0000, 1) == Some(a.gpsVersionId)
    && BytesAt(rs, 0x0001, 2) == Some(a.gpsLatitudeRef)
    && ThreeRationalsAt(rs, 0x0002) == Some(a.gpsLatitude)
    && BytesAt(rs, 0x0003, 2) == Some(a.gpsLongitudeRef)
    && ThreeRationalsAt(rs, 0x0004) == Some(a.gpsLongitude)
    && BytesAt(rs, 0x0005, 1) == Some([a.gpsAltitudeRef])
    && RationalAt(rs, 0x0006, 5) == Some(a.gpsAltitude)
    && ThreeRationalsAt(rs, 0x0007) == Some(a.gpsTimestamp)
    && BytesAt(rs, 0x001D, 2) == Some(a.gpsDatestamp)
    && (if a.gpsProcessingMethod[0] == 0 then Find(rs, 0x001B) == None
        else BytesAt(rs, 0x001B, 7) == Some([0x41, 0x53, 0x43, 0x49, 0x49, 0, 0, 0]
                                            + a.gpsProcessingMethod[..StrLen(a.gpsProcessingMethod)]))
  }

  ghost predicate FirstTells(rs: seq<Record>, a: ExifAttribute, thumbAt: nat, thumbSize: nat) {
    && |rs| == 9
    && LongAt(rs, 0x0100) == Some(a.widthThumb)
    && LongAt(rs, 0x0101) == Some(a.heightThumb)
    && ShortAt(rs, 0x0103) == Some(a.compressionScheme)
    && ShortAt(rs, 0x0112) == Some(a.orientation)
    && RationalAt(rs, 0x011A, 5) == Some(a.xResolution)
    && RationalAt(rs, 0x011B, 5) == Some(a.yResolution)
    && ShortAt(rs, 0x0128) == Some(a.resolutionUnit)
    && LongAt(rs, 0x0201) == Some(thumbAt)
    && LongAt(rs, 0x0202) == Some(thumbSize)
  }

  /**
   Everything a reader gets from a structure of `size` bytes is what the record and the thumbnail hold. The
   thumbnail is there unless it is switched off, empty, or would push the structure past 65536 bytes.
   */
  ghost predicate Tells(t: Tiff, size: nat, a: ExifAttribute, thumb: seq<byte>)
    requires ValidAttribute(a)
  {
    && ZerothTells(t.ifd0, a)
    && (t.exif.Some? && ExifTells(t.exif.value, a))
    && (t.gps.Some? <==> a.enableGps) && (t.gps.Some? ==> GpsTells(t.gps.value, a))
    && (t.ifd1.Some? ==> && a.enableThumb && t.ifd1.value.1 == thumb != [] && |thumb| <= size <= 65536
                         && FirstTells(t.ifd1.value.0, a, size - |thumb|, |thumb|))
    && (t.ifd1.None? ==> !a.enableThumb || thumb == [] || size + 130 + |thumb| > 65536)
  }

  // Looking a stored field up.

  ghost predicate Ascends(fs: seq<Field>) {
    forall i, j :: 0 <= i < j < |fs| ==> fs[i].tag < fs[j].tag
  }

  lemma Found(fs: seq<Field>, at: nat, k: nat)
    requires Ascends(fs) && k < |fs| && StoredByTheRule(fs[k])
    ensures Find(RecordsAsRead(fs, at), fs[k].tag) == Some(AsMeant(fs[k]))
  {
    hide AsRead, AsMeant, Find, StoredByTheRule, Payloads, AllAsRead;
    var base := PayloadBase(at, |fs|);
    FindField(fs, base, k);
    FieldRecovered(fs[k], base + |Payloads(fs, k)|);
  }

  lemma LongFound(fs: seq<Field>, at: nat, k: nat, tag: Word16, v: Word32)
    requires Ascends(fs) && k < |fs| && fs[k] == Long(tag, v)
    ensures LongAt(RecordsAsRead(fs, at), tag) == Some(v)
  {
    hide Ascends, RecordsAsRead, Find, Le32, FromLe32;
    Found(fs, at, k);
    Le32RoundTrip(v);
    assert Le32(v)[..4] == Le32(v);
  }

  lemma ShortFound(fs: seq<Field>, at: nat, k: nat, tag: Word16, v: Word16)
    requires Ascends(fs) && k < |fs| && fs[k] == Short(tag, v)
    ensures ShortAt(RecordsAsRead(fs, at), tag) == Some(v)
  {
    hide Ascends, RecordsAsRead, Find;
    Found(fs, at, k);
    Le16RoundTrip(v);
    assert Le32(v)[..2] == Le16(v);
  }

  lemma InlineFound(fs: seq<Field>, at: nat, k: nat, tag: Word16, typ: Word16, value: seq<byte>)
    requires Ascends(fs) && k < |fs| && 0 < |value| <= 4 && (typ == 1 || typ == 2 || typ == 7)
    requires fs[k] == Inline(tag, typ, value)
    ensures BytesAt(RecordsAsRead(fs, at), tag, typ) == Some(value)
  {
    hide Ascends, RecordsAsRead, Find;
    Found(fs, at, k);
    assert fs[k].data[..|value|] == value;
  }

  lemma ByteFound(fs: seq<Field>, at: nat, k: nat, tag: Word16, v: byte)
    requires Ascends(fs) && k < |fs| && fs[k] == Byte(tag, v)
    ensures BytesAt(RecordsAsRead(fs, at), tag, 1) == Some([v])
  {
    hide Ascends, RecordsAsRead, Find, Le32;
    Found(fs, at, k);
    SmallLe32(v);
    assert fs[k].data[..1] == [v];
  }

  lemma BytesFound(fs: seq<Field>, at: nat, k: nat, tag: Word16, typ: Word16, value: seq<byte>)
    requires Ascends(fs) && k < |fs| && 4 < |value| <= 1000 && (typ == 2 || typ == 7)
    requires fs[k] == OutOfLine(tag, typ, value)
    ensures BytesAt(RecordsAsRead(fs, at), tag, typ) == Some(value)
  {
    hide Ascends, RecordsAsRead, Find;
    Found(fs, at, k);
    assert fs[k].data[..|value|] == value;
  }

  /** A text is found whole exactly when it is recoverable. */
  lemma TextFound(fs: seq<Field>, at: nat, k: nat, tag: Word16, s: seq<byte>, offset: nat)
    requires Ascends(fs) && k < |fs| && StrLen(s) < |s| <= 1000 && fs[k] == Text(tag, s)
    requires offset == PayloadBase(at, |fs|) + |Payloads(fs, k)| && 0 < offset < 256
    ensures TextAt(RecordsAsRead(fs, at), tag) == Some(s[..StrLen(s)]) <==> Recoverable(s, offset)
  {
    hide AsRead, AsMeant, Find, Payloads, AllAsRead, StrLen, Recoverable, CString, Text, ValidField, PayloadBase;
    FindField(fs, PayloadBase(at, |fs|), k);
    TextRecovered(tag, s, offset);
    TextRecord(tag, s, offset);
  }

  lemma TextRecord(tag: Word16, s: seq<byte>, offset: nat)
    requires StrLen(s) < |s| <= 1000
    ensures Text(tag, s).tag == tag
    ensures var r, m := AsRead(Text(tag, s), offset), AsMeant(Text(tag, s));
            && r.tag == m.tag == tag && r.typ == m.typ == 2
            && |r.data| == |m.data| == r.count == m.count == StrLen(s) + 1
            && m.data == s[..StrLen(s)] + [0]
            && (r == m <==> r.data[StrLen(s)] == 0 && r.data[..StrLen(s)] == s[..StrLen(s)])
  {
    hide StrLen, Le32;
    var n := StrLen(s);
    var r, m := AsRead(Text(tag, s), offset), AsMeant(Text(tag, s));
    assert m.data == CString(s) == s[..n] + [0];
    assert r.data == r.data[..n] + [r.data[n]];
  }

  lemma RationalOfBytes(r: Rational)
    ensures RationalOf(RationalBytes(r)) == r
  {
    hide Le32, FromLe32;
    Le32RoundTrip(r.num);
    Le32RoundTrip(r.den);
    assert RationalBytes(r)[..4] == Le32(r.num) && RationalBytes(r)[4..] == Le32(r.den);
  }

  lemma RationalFound(fs: seq<Field>, at: nat, k: nat, tag: Word16, typ: Word16, r: Rational)
    requires Ascends(fs) && k < |fs| && (typ == 5 || typ == 10) && fs[k] == Rationals(tag, typ, [r])
    ensures RationalAt(RecordsAsRead(fs, at), tag, typ) == Some(r)
  {
    hide Ascends, RecordsAsRead, Find, RationalBytes, RationalOf;
    Found(fs, at, k);
    RationalOfBytes(r);
    assert RationalsBytes([r]) == RationalBytes(r) by { assert [r][1..] == []; }
    assert fs[k].data[..8] == RationalBytes(r);
  }

  lemma ThreeRationalsFound(fs: seq<Field>, at: nat, k: nat, tag: Word16, q: seq<Rational>)
    requires Ascends(fs) && k < |fs| && |q| == 3 && fs[k] == Rationals(tag, RATIONAL, q)
    ensures ThreeRationalsAt(RecordsAsRead(fs, at), tag) == Some(q)
  {
    hide Ascends, RecordsAsRead, Find, RationalBytes, RationalOf;
    Found(fs, at, k);
    RationalOfBytes(q[0]);
    RationalOfBytes(q[1]);
    RationalOfBytes(q[2]);
    ThreeRationalsBytes(q);
    var b := RationalsBytes(q);
    assert b[..24] == b;
    assert b[..8] == RationalBytes(q[0]) && b[8..16] == RationalBytes(q[1]) && b[16..] == RationalBytes(q[2]);
    assert q == [q[0], q[1], q[2]];
  }

  lemma ThreeRationalsBytes(q: seq<Rational>)
    requires |q| == 3
    ensures RationalsBytes(q) == RationalBytes(q[0]) + RationalBytes(q[1]) + RationalBytes(q[2])
  {
    hide RationalBytes;
    var last := q[1..][1..];
    assert q[1..][0] == q[1] && last[0] == q[2] && last[1..] == [];
    assert RationalsBytes(last) == RationalBytes(q[2]);
    assert RationalsBytes(q[1..]) == RationalBytes(q[1]) + RationalBytes(q[2]);
  }

  // The four directories.

  lemma ZerothFound(a: ExifAttribute)
    requires ValidAttribute(a)
    ensures ZerothTells(RecordsAsRead(Ifd0Fields(a), IFD0_AT), a)
  {
    hide Payload, StoredByTheRule, ValidField, StrLen, Le32, Short, Long, OutOfLine, Text, TypeSize, Recoverable,
         RecordsAsRead, LongAt, ShortAt, BytesAt, TextAt, ExifAt, GpsAt;
    var fs := Ifd0Fields(a);
    ZerothAscends(a);
    LongFound(fs, IFD0_AT, 0, 0x0100, a.width);
    LongFound(fs, IFD0_AT, 1, 0x0101, a.height);
    ShortFound(fs, IFD0_AT, 4, 0x0112, a.orientation);
    BytesFound(fs, IFD0_AT, 6, 0x0132, ASCII, a.dateTime);
    ShortFound(fs, IFD0_AT, 7, 0x0213, a.ycbcrPositioning);
    ZerothTexts(a);
  }

  lemma ZerothAscends(a: ExifAttribute)
    requires ValidAttribute(a)
    ensures Ascends(Ifd0Fields(a))
  {
    hide StrLen, ExifAt, GpsAt, CString, Le32;
  }

  lemma ZerothTexts(a: ExifAttribute)
    requires ValidAttribute(a)
    ensures var rs := RecordsAsRead(Ifd0Fields(a), IFD0_AT);
            && |rs| == (if a.enableGps then 10 else 9)
            && (TextAt(rs, 0x010F) == Some(a.maker[..StrLen(a.maker)]) <==> Recoverable(a.maker, MakerAt(a)))
            && (TextAt(rs, 0x0110) == Some(a.model[..StrLen(a.model)]) <==> Recoverable(a.model, ModelAt(a)))
            && (TextAt(rs, 0x0131) == Some(a.software[..StrLen(a.software)])
                <==> Recoverable(a.software, SoftwareAt(a)))
  {
    hide StrLen, Le32, Short, Long, OutOfLine, Text, Recoverable, TextAt, ExifAt, GpsAt, Payload, Payloads, CString,
         AllAsRead, Ascends;
    var fs := Ifd0Fields(a);
    ZerothAscends(a);
    TextOffsets(a);
    OffsetsInAByte(a);
    TextFound(fs, IFD0_AT, 2, 0x010F, a.maker, MakerAt(a));
    TextFound(fs, IFD0_AT, 3, 0x0110, a.model, ModelAt(a));
    TextFound(fs, IFD0_AT, 5, 0x0131, a.software, SoftwareAt(a));
  }

  lemma ExifAscends(a: ExifAttribute)
    requires ValidAttribute(a)
    ensures Ascends(ExifFields(a))
  {
    hide TypeSize, Payload, StoredByTheRule, ValidField, StrLen, CString, Le32, RationalsBytes;
  }

  lemma ExifFound(a: ExifAttribute)
    requires ValidAttribute(a)
    ensures ExifTells(RecordsAsRead(ExifFields(a), ExifAt(a)), a)
  {
    hide Payload, StoredByTheRule, ValidField, StrLen, Short, Long, Inline, OutOfLine, Rationals, TypeSize, AllAsRead,
         BytesAt, ExifRationalsTell, ExifNumbersTell, ExifAt, Ascends;
    var fs, at := ExifFields(a), ExifAt(a);
    ExifAscends(a);
    ExifRationalsFound(a, at);
    ExifNumbersFound(a, at);
    InlineFound(fs, at, 4, 0x9000, UNDEFINED, a.exifVersion);
    BytesFound(fs, at, 5, 0x9003, ASCII, a.dateTime);
    BytesFound(fs, at, 6, 0x9004, ASCII, a.dateTime);
    BytesFound(fs, at, 15, 0x9286, UNDEFINED, StoredComment(a));
    assert StoredComment(a) == [0, 0, 0, 0x49, 0x49, 0x43, 0x53, 0x41, a.userComment[0]];
  }

  lemma ExifRationalsFound(a: ExifAttribute, at: nat)
    requires ValidAttribute(a)
    ensures ExifRationalsTell(RecordsAsRead(ExifFields(a), at), a)
  {
    hide Payload, StoredByTheRule, ValidField, StrLen, Short, Long, Inline, OutOfLine, Rationals, TypeSize,
         RecordsAsRead, RationalAt, Ascends;
    var fs := ExifFields(a);
    ExifAscends(a);
    RationalFound(fs, at, 0, 0x829A, RATIONAL, a.exposureTime);
    RationalFound(fs, at, 1, 0x829D, RATIONAL, a.fnumber);
    RationalFound(fs, at, 7, 0x9201, SRATIONAL, a.shutterSpeed);
    RationalFound(fs, at, 8, 0x9202, RATIONAL, a.aperture);
    RationalFound(fs, at, 9, 0x9203, SRATIONAL, a.brightness);
    RationalFound(fs, at, 10, 0x9204, SRATIONAL, a.exposureBias);
    RationalFound(fs, at, 11, 0x9205, RATIONAL, a.maxAperture);
    RationalFound(fs, at, 14, 0x920A, RATIONAL, a.focalLength);
  }

  lemma ExifNumbersFound(a: ExifAttribute, at: nat)
    requires ValidAttribute(a)
    ensures ExifNumbersTell(RecordsAsRead(ExifFields(a), at), a)
  {
    hide TypeSize, Payload, StoredByTheRule, ValidField, StrLen, Short, Long, Inline, OutOfLine, Rationals,
         RecordsAsRead, ShortAt, LongAt, Ascends;
    var fs := ExifFields(a);
    ExifAscends(a);
    ShortFound(fs, at, 2, 0x8822, a.exposureProgram);
    ShortFound(fs, at, 3, 0x8827, a.isoSpeedRating);
    ShortFound(fs, at, 12, 0x9207, a.meteringMode);
    ShortFound(fs, at, 13, 0x9209, a.flash);
    ShortFound(fs, at, 16, 0xA001, a.colorSpace);
    LongFound(fs, at, 17, 0xA002, a.width);
    LongFound(fs, at, 18, 0xA003, a.height);
    LongFound(fs, at, 19, 0xA402, a.exposureMode);
    LongFound(fs, at, 20, 0xA403, a.whiteBalance);
    LongFound(fs, at, 21, 0xA406, a.sceneCaptureType);
  }

  lemma GpsAscends(a: ExifAttribute)
    requires ValidAttribute(a)
    ensures Ascends(GpsFields(a))
    ensures a.gpsProcessingMethod[0] == 0 ==> forall i :: 0 <= i < 9 ==> GpsFields(a)[i].tag != 0x001B
  {
    hide TypeSize, Payload, StoredByTheRule, ValidField, StrLen, CString, Le32, RationalsBytes, StoredMethod;
  }

  lemma GpsFound(a: ExifAttribute)
    requires ValidAttribute(a)
    ensures GpsTells(RecordsAsRead(GpsFields(a), GpsAt(a)), a)
  {
    hide Payload, StoredByTheRule, ValidField, StrLen, Le32, Byte, Inline, OutOfLine, Rationals, TypeSize, AllAsRead,
         BytesAt, RationalAt, ThreeRationalsAt, Find, GpsAt, Ascends;
    var fs, at := GpsFields(a), GpsAt(a);
    GpsAscends(a);
    InlineFound(fs, at, 0, 0x0000, BYTE, a.gpsVersionId);
    InlineFound(fs, at, 1, 0x0001, ASCII, a.gpsLatitudeRef);
    ThreeRationalsFound(fs, at, 2, 0x0002, a.gpsLatitude);
    InlineFound(fs, at, 3, 0x0003, ASCII, a.gpsLongitudeRef);
    ThreeRationalsFound(fs, at, 4, 0x0004, a.gpsLongitude);
    ByteFound(fs, at, 5, 0x0005, a.gpsAltitudeRef);
    RationalFound(fs, at, 6, 0x0006, RATIONAL, a.gpsAltitude);
    ThreeRationalsFound(fs, at, 7, 0x0007, a.gpsTimestamp);
    BytesFound(fs, at, |fs| - 1, 0x001D, ASCII, a.gpsDatestamp);
    MethodFound(a, at);
  }

  lemma MethodFound(a: ExifAttribute, at: nat)
    requires ValidAttribute(a)
    ensures var rs := RecordsAsRead(GpsFields(a), at);
            if a.gpsProcessingMethod[0] == 0 then Find(rs, 0x001B) == None
            else BytesAt(rs, 0x001B, 7) == Some([0x41, 0x53, 0x43, 0x49, 0x49, 0, 0, 0]
                                                + a.gpsProcessingMethod[..StrLen(a.gpsProcessingMethod)])
  {
    hide TypeSize, Payload, StoredByTheRule, ValidField, StrLen, Le32, CString, RationalsBytes, AllAsRead, BytesAt,
         Find, OutOfLine, Ascends;
    var fs := GpsFields(a);
    GpsAscends(a);
    if a.gpsProcessingMethod[0] == 0 {
      FindNoField(fs, PayloadBase(at, |fs|), 0x001B);
    } else {
      MethodIsStored(a);
      BytesFound(fs, at, 8, 0x001B, UNDEFINED, StoredMethod(a));
    }
  }

  lemma MethodIsStored(a: ExifAttribute)
    requires ValidAttribute(a) && a.gpsProcessingMethod[0] != 0
    ensures |StoredMethod(a)| > 8
  {
  }

  lemma FirstFound(a: ExifAttribute, thumbSize: Word32)
    requires ValidAttribute(a)
    ensures FirstTells(RecordsAsRead(Ifd1Fields(a, thumbSize), Ifd1At(a)), a, ThumbAt(a), thumbSize)
  {
    hide TypeSize, Payload, StoredByTheRule, ValidField, StrLen, Short, Long, Rationals, AllAsRead, ShortAt, LongAt,
         RationalAt, Ifd1At, ThumbAt, Ascends;
    var fs, at := Ifd1Fields(a, thumbSize), Ifd1At(a);
    OffsetsAreSmall(a);
    FirstAscends(a, thumbSize);
    LongFound(fs, at, 0, 0x0100, a.widthThumb);
    LongFound(fs, at, 1, 0x0101, a.heightThumb);
    ShortFound(fs, at, 2, 0x0103, a.compressionScheme);
    ShortFound(fs, at, 3, 0x0112, a.orientation);
    RationalFound(fs, at, 4, 0x011A, RATIONAL, a.xResolution);
    RationalFound(fs, at, 5, 0x011B, RATIONAL, a.yResolution);
    ShortFound(fs, at, 6, 0x0128, a.resolutionUnit);
    LongFound(fs, at, 7, 0x0201, ThumbAt(a));
    LongFound(fs, at, 8, 0x0202, thumbSize);
  }

  lemma FirstAscends(a: ExifAttribute, thumbSize: nat)
    requires ValidAttribute(a)
    ensures Ascends(Ifd1Fields(a, thumbSize))
  {
    hide StrLen, Le32, RationalsBytes, ThumbAt;
  }

  // The whole picture.

  /**
   What a reader gets from a picture's structure is what the record holds, for every record and
   thumbnail. A thumbnail that is kept adds its own size and 130 bytes of directory.
   */
  lemma PictureTells(a: ExifAttribute, thumb: seq<byte>)
    requires ValidAttribute(a)
    ensures var img, bare := TiffImage(a, thumb), |TiffImage(a, [])|;
            var t := ReadTiff(img);
            && t.Some? && Tells(t.value, |img|, a, thumb)
            && |img| == if t.value.ifd1.Some? then bare + 130 + |thumb| else bare
  {
    hide ReadTiff, TiffImage, RecordsAsRead, Ifd0Fields, ExifFields, GpsFields, Ifd1Fields, ZerothTells, ExifTells,
         GpsTells, FirstTells, ExifAt, GpsAt, Ifd1At, HasParts;
    TiffImageParts(a, thumb);
    ReadTiffBack(TiffImage(a, thumb), a, thumb);
    TiffImageSize(a, thumb);
    TiffImageSize(a, []);
    ZerothFound(a);
    ExifFound(a);
    GpsFound(a);
    if ThumbKept(a, thumb) {
      FirstFound(a, |thumb|);
    }
  }

  /** An APP1 segment: marker, length, "Exif" and two NULs, then a TIFF structure that takes the rest of its length. */
  function ReadApp1(seg: seq<byte>): Option<Tiff> {
    if |seg| < 10 || seg[..2] != [0xFF, 0xE1] || seg[4..10] != [0x45, 0x78, 0x69, 0x66, 0, 0] then None else
      var end := 2 + 256 * (seg[2] as int) + seg[3] as int;
      if 10 <= end <= |seg| then ReadTiff(seg[10..end]) else None
  }

  /** A reader that goes by the length finds the structure when the length is right. */
  lemma ReadSegment(buf: seq<byte>, at: nat, length: seq<byte>, a: ExifAttribute, thumb: seq<byte>)
    requires ValidAttribute(a) && |length| == 2
    requires 256 * (length[0] as int) + length[1] as int == 8 + |TiffImage(a, thumb)|
    requires Holds(buf, at, APP1_MARKER + length + EXIF_HEADER) && Holds(buf, at + 10, TiffImage(a, thumb))
    ensures at <= |buf| && ReadApp1(buf[at..]).Some?
    ensures Tells(ReadApp1(buf[at..]).value, |TiffImage(a, thumb)|, a, thumb)
  {
    hide ReadTiff, TiffImage, Tells;
    PictureTells(a, thumb);
    var img, seg := TiffImage(a, thumb), buf[at..];
    var front := APP1_MARKER + length + EXIF_HEADER;
    assert forall i :: 0 <= i < 10 ==> seg[i] == front[i];
    assert seg[..2] == APP1_MARKER && seg[4..10] == EXIF_HEADER;
    assert seg[10..10 + |img|] == img;
  }
}
