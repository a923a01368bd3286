/**
 What the camera HAL means to store for one picture: the attribute record and, as
 functions of it, the fields of the four directories, their places and the whole
 TIFF structure. Tags, types and counts follow sections 4.6.4 to 4.6.6 of Exif 2.2.
 */
module ExifFormat {
  import opened Bytes
  import opened TiffDirectory

  const TIFF_HEADER: seq<byte> := [0x49, 0x49, 0x2A, 0x00, 0x08, 0x00, 0x00, 0x00]
  const EXIF_HEADER: seq<byte> := [0x45, 0x78, 0x69, 0x66, 0x00, 0x00]
  const SOI: seq<byte> := [0xFF, 0xD8]
  const APP1_MARKER: seq<byte> := [0xFF, 0xE1]
  const COMMENT_CODE: seq<byte> := [0x00, 0x00, 0x00, 0x49, 0x49, 0x43, 0x53, 0x41]
  const ASCII_PREFIX: seq<byte> := [0x41, 0x53, 0x43, 0x49, 0x49, 0x00, 0x00, 0x00]

  const EXIF_FILE_SIZE: nat := 28800
  const EXIF_LIMIT_SIZE: nat := 64 * 1024

  const BYTE: nat := 1
  const ASCII: nat := 2
  const SHORT: nat := 3
  const LONG: nat := 4
  const RATIONAL: nat := 5
  const UNDEFINED: nat := 7
  const SRATIONAL: nat := 10

  type Word16 = x: nat | x < 0x1_0000
  type Word32 = x: nat | x < 0x1_0000_0000

  /** A (signed or unsigned) rational as its two 32-bit patterns. */
  datatype Rational = Rational(num: Word32, den: Word32)

  datatype ExifAttribute = ExifAttribute(
    enableGps: bool, enableThumb: bool,
    maker: seq<byte>, model: seq<byte>, software: seq<byte>,
    exifVersion: seq<byte>, dateTime: seq<byte>, userComment: seq<byte>,
    width: Word32, height: Word32, widthThumb: Word32, heightThumb: Word32,
    orientation: Word16, ycbcrPositioning: Word16, exposureProgram: Word16, isoSpeedRating: Word16,
    meteringMode: Word16, flash: Word16, colorSpace: Word16, exposureMode: Word16,
    whiteBalance: Word16, sceneCaptureType: Word16,
    xResolution: Rational, yResolution: Rational, resolutionUnit: Word16, compressionScheme: Word16,
    exposureTime: Rational, fnumber: Rational, aperture: Rational, maxAperture: Rational,
    focalLength: Rational, shutterSpeed: Rational, brightness: Rational, exposureBias: Rational,
    gpsVersionId: seq<byte>, gpsProcessingMethod: seq<byte>,
    gpsLatitudeRef: seq<byte>, gpsLongitudeRef: seq<byte>, gpsAltitudeRef: byte,
    gpsLatitude: seq<Rational>, gpsLongitude: seq<Rational>, gpsAltitude: Rational,
    gpsTimestamp: seq<Rational>, gpsDatestamp: seq<byte>)

  /** The array sizes of the C structure, and the NUL that ends each of its strings. */
  predicate ValidAttribute(a: ExifAttribute) {
    && |a.maker| == |a.model| == |a.software| == 32
    && StrLen(a.maker) < 32 && StrLen(a.model) < 32 && StrLen(a.software) < 32
    && |a.exifVersion| == 4 && |a.dateTime| == 20
    && |a.userComment| == 150 && StrLen(a.userComment) + 1 + |COMMENT_CODE| <= 150
    && |a.gpsVersionId| == 4 && |a.gpsProcessingMethod| == 100
    && |a.gpsLatitudeRef| == |a.gpsLongitudeRef| == 2
    && |a.gpsLatitude| == |a.gpsLongitude| == |a.gpsTimestamp| == 3
    && |a.gpsDatestamp| == 11
  }

  function RationalBytes(r: Rational): (b: seq<byte>)
    ensures |b| == 8
  {
    Le32(r.num) + Le32(r.den)
  }

  function RationalsBytes(rs: seq<Rational>): (b: seq<byte>)
    ensures |b| == 8 * |rs|
  {
    if rs == [] then [] else RationalBytes(rs[0]) + RationalsBytes(rs[1..])
  }

  function Short(tag: Word16, value: Word16): (f: Field)
    ensures Payload(f) == [] && StoredByTheRule(f)
  {
    Entry(tag, SHORT, 1, Le32(value), false)
  }

  function Long(tag: Word16, value: nat): (f: Field)
    ensures Payload(f) == [] && StoredByTheRule(f)
  {
    Entry(tag, LONG, 1, Le32(value), false)
  }

  function Byte(tag: Word16, value: byte): (f: Field)
    ensures Payload(f) == [] && StoredByTheRule(f)
  {
    Entry(tag, BYTE, 1, Le32(value), false)
  }

  /** One to four bytes, kept in the entry and padded with zeros. */
  function Inline(tag: Word16, typ: Word16, value: seq<byte>): (f: Field)
    requires 0 < |value| <= 4 && TypeSize(typ) == 1
    ensures Payload(f) == [] && StoredByTheRule(f)
  {
    Entry(tag, typ, |value|, value + seq(4 - |value|, _ => 0), false)
  }

  function OutOfLine(tag: Word16, typ: Word16, value: seq<byte>): (f: Field)
    requires 0 < |value| < 0x1_0000_0000 && TypeSize(typ) == 1
    ensures Payload(f) == value && (StoredByTheRule(f) <==> |value| > 4)
  {
    Entry(tag, typ, |value|, value, true)
  }

  function CString(s: seq<byte>): (c: seq<byte>)
    requires StrLen(s) < |s|
    ensures |c| == StrLen(s) + 1 && c <= s
    ensures c[StrLen(s)] == 0 && forall i :: 0 <= i < StrLen(s) ==> c[i] != 0
  {
    s[..StrLen(s) + 1]
  }

  function Text(tag: Word16, s: seq<byte>): (f: Field)
    requires StrLen(s) < |s| <= 1000
    ensures |Payload(f)| == StrLen(s) + 1 && (StoredByTheRule(f) <==> StrLen(s) >= 4)
  {
    OutOfLine(tag, ASCII, CString(s))
  }

  function Rationals(tag: Word16, typ: Word16, rs: seq<Rational>): (f: Field)
    requires 0 < |rs| <= 1000 && TypeSize(typ) == 8
    ensures |Payload(f)| == 8 * |rs| && StoredByTheRule(f)
  {
    Entry(tag, typ, |rs|, RationalsBytes(rs), true)
  }

  /** The nine bytes that end up as the user comment: the character code starts with a NUL. */
  function StoredComment(a: ExifAttribute): (b: seq<byte>)
    requires ValidAttribute(a)
    ensures |b| == 9
  {
    COMMENT_CODE + a.userComment[..1]
  }

  /** The stored bytes are the code and the comment just when there is no comment. */
  lemma CommentIsCut(a: ExifAttribute)
    requires ValidAttribute(a)
    ensures StoredComment(a) == COMMENT_CODE + CString(a.userComment) <==> StrLen(a.userComment) == 0
  {
    if StrLen(a.userComment) == 0 {
      assert CString(a.userComment) == a.userComment[..1];
    } else {
      assert |COMMENT_CODE + CString(a.userComment)| != |StoredComment(a)|;
    }
  }

  /** "User comments", the comment a picture has by default. */
  const DEFAULT_COMMENT: seq<byte> := [0x55, 0x73, 0x65, 0x72, 0x20, 0x63, 0x6F, 0x6D, 0x6D, 0x65, 0x6E, 0x74, 0x73]

  /** Only its first letter is stored. */
  lemma DefaultCommentIsCut(a: ExifAttribute)
    requires ValidAttribute(a) && a.userComment[..14] == DEFAULT_COMMENT + [0]
    ensures StoredComment(a) == COMMENT_CODE + [0x55] != COMMENT_CODE + CString(a.userComment)
    ensures CString(a.userComment) == DEFAULT_COMMENT + [0]
  {
    hide StrLen;
    var c, d := a.userComment, DEFAULT_COMMENT + [0];
    ShortComment(c, d, 13);
    assert c[..1] == d[..1];
    CommentIsCut(a);
  }

  /** A string's length depends on nothing past its NUL. */
  lemma ShortComment(c: seq<byte>, d: seq<byte>, n: nat)
    requires n < |d| <= |c| && c[..|d|] == d && d[n] == 0 && forall i :: 0 <= i < n ==> d[i] != 0
    ensures StrLen(c) == n
  {
    assert forall i :: 0 <= i < |d| ==> c[i] == d[i];
    assert c[n] == 0;
  }

  function StoredMethod(a: ExifAttribute): (b: seq<byte>)
    requires ValidAttribute(a)
    ensures 8 <= |b| <= 108
  {
    ASCII_PREFIX + a.gpsProcessingMethod[..StrLen(a.gpsProcessingMethod)]
  }

  predicate HasMethod(a: ExifAttribute)
    requires ValidAttribute(a)
  {
    a.gpsProcessingMethod[0] != 0
  }

  // Offsets of the parts, counted from the TIFF header.

  const IFD0_AT: nat := 8

  function Ifd0Count(a: ExifAttribute): nat { if a.enableGps then 10 else 9 }

  function ExifAt(a: ExifAttribute): nat {
    PayloadBase(IFD0_AT, Ifd0Count(a)) + (StrLen(a.maker) + 1) + (StrLen(a.model) + 1) + (StrLen(a.software) + 1) + 20
  }

  const EXIF_COUNT: nat := 22

  function GpsAt(a: ExifAttribute): nat {
    PayloadBase(ExifAt(a), EXIF_COUNT) + 8 * 8 + 2 * 20 + 9
  }

  function GpsCount(a: ExifAttribute): nat
    requires ValidAttribute(a)
  {
    if HasMethod(a) then 10 else 9
  }

  function Ifd1At(a: ExifAttribute): nat
    requires ValidAttribute(a)
  {
    if !a.enableGps then GpsAt(a)
    else PayloadBase(GpsAt(a), GpsCount(a)) + 3 * 24 + 8 + 11 + if HasMethod(a) then |StoredMethod(a)| else 0
  }

  const IFD1_COUNT: nat := 9

  function ThumbAt(a: ExifAttribute): nat
    requires ValidAttribute(a)
  {
    PayloadBase(Ifd1At(a), IFD1_COUNT) + 2 * 8
  }

  // The fields of the four directories.

  function Ifd0Fields(a: ExifAttribute): (fs: seq<Field>)
    requires ValidAttribute(a)
    ensures |fs| == Ifd0Count(a)
  {
    [Long(0x0100, a.width), Long(0x0101, a.height),
     Text(0x010F, a.maker), Text(0x0110, a.model),
     Short(0x0112, a.orientation),
     Text(0x0131, a.software), OutOfLine(0x0132, ASCII, a.dateTime),
     Short(0x0213, a.ycbcrPositioning),
     Long(0x8769, ExifAt(a))]
    + if a.enableGps then [Long(0x8825, GpsAt(a))] else []
  }

  function ExifFields(a: ExifAttribute): (fs: seq<Field>)
    requires ValidAttribute(a)
    ensures |fs| == EXIF_COUNT
  {
    [Rationals(0x829A, RATIONAL, [a.exposureTime]), Rationals(0x829D, RATIONAL, [a.fnumber]),
     Short(0x8822, a.exposureProgram), Short(0x8827, a.isoSpeedRating),
     Inline(0x9000, UNDEFINED, a.exifVersion),
     OutOfLine(0x9003, ASCII, a.dateTime), OutOfLine(0x9004, ASCII, a.dateTime),
     Rationals(0x9201, SRATIONAL, [a.shutterSpeed]), Rationals(0x9202, RATIONAL, [a.aperture]),
     Rationals(0x9203, SRATIONAL, [a.brightness]), Rationals(0x9204, SRATIONAL, [a.exposureBias]),
     Rationals(0x9205, RATIONAL, [a.maxAperture]),
     Short(0x9207, a.meteringMode), Short(0x9209, a.flash),
     Rationals(0x920A, RATIONAL, [a.focalLength]),
     OutOfLine(0x9286, UNDEFINED, StoredComment(a)),
     Short(0xA001, a.colorSpace), Long(0xA002, a.width), Long(0xA003, a.height),
     Long(0xA402, a.exposureMode), Long(0xA403, a.whiteBalance), Long(0xA406, a.sceneCaptureType)]
  }

  function GpsFields(a: ExifAttribute): (fs: seq<Field>)
    requires ValidAttribute(a)
    ensures |fs| == GpsCount(a)
  {
    [Inline(0x0000, BYTE, a.gpsVersionId),
     Inline(0x0001, ASCII, a.gpsLatitudeRef), Rationals(0x0002, RATIONAL, a.gpsLatitude),
     Inline(0x0003, ASCII, a.gpsLongitudeRef), Rationals(0x0004, RATIONAL, a.gpsLongitude),
     Byte(0x0005, a.gpsAltitudeRef), Rationals(0x0006, RATIONAL, [a.gpsAltitude]),
     Rationals(0x0007, RATIONAL, a.gpsTimestamp)]
    + (if HasMethod(a) then [OutOfLine(0x001B, UNDEFINED, StoredMethod(a))] else [])
    + [OutOfLine(0x001D, ASCII, a.gpsDatestamp)]
  }

  function Ifd1Fields(a: ExifAttribute, thumbSize: nat): (fs: seq<Field>)
    requires ValidAttribute(a)
    ensures |fs| == IFD1_COUNT
  {
    [Long(0x0100, a.widthThumb), Long(0x0101, a.heightThumb),
     Short(0x0103, a.compressionScheme), Short(0x0112, a.orientation),
     Rationals(0x011A, RATIONAL, [a.xResolution]), Rationals(0x011B, RATIONAL, [a.yResolution]),
     Short(0x0128, a.resolutionUnit),
     Long(0x0201, ThumbAt(a)), Long(0x0202, thumbSize)]
  }

  /** The thumbnail survives unless it pushes the structure past the 64 KB limit. */
  predicate ThumbKept(a: ExifAttribute, thumb: seq<byte>)
    requires ValidAttribute(a)
  {
    a.enableThumb && thumb != [] && ThumbAt(a) + |thumb| <= EXIF_LIMIT_SIZE
  }

  function TiffSize(a: ExifAttribute, thumb: seq<byte>): nat
    requires ValidAttribute(a)
  {
    if ThumbKept(a, thumb) then ThumbAt(a) + |thumb| else Ifd1At(a)
  }

  function NextIfd(a: ExifAttribute, thumb: seq<byte>): nat
    requires ValidAttribute(a)
  {
    if ThumbKept(a, thumb) then Ifd1At(a) else 0
  }

  lemma Ifd0End(a: ExifAttribute)
    requires ValidAttribute(a)
    ensures DirectoryEnd(Ifd0Fields(a), IFD0_AT) == ExifAt(a)
  {
    hide Le32, StrLen, Byte, Short, Long, Inline, OutOfLine, Text, Rationals, CString, TypeSize, ValidField, Payload;
    var fs := Ifd0Fields(a);
    FourPayloads(fs, 0);
    FourPayloads(fs, 4);
    assert |Payloads(fs, 9)| == |Payloads(fs, 8)|;
    assert a.enableGps ==> |Payloads(fs, 10)| == |Payloads(fs, 9)|;
  }

  /** The values of the first eight Exif fields, and of the first sixteen. */
  lemma ExifFirstPayloads(a: ExifAttribute)
    requires ValidAttribute(a)
    ensures |Payloads(ExifFields(a), 8)| == 3 * 8 + 2 * 20
  {
    hide Le32, StrLen, Byte, Short, Long, Inline, OutOfLine, Text, Rationals, CString, TypeSize, ValidField, Payload;
    var fs := ExifFields(a);
    FourPayloads(fs, 0);
    FourPayloads(fs, 4);
  }

  lemma ExifMorePayloads(a: ExifAttribute)
    requires ValidAttribute(a)
    ensures |Payloads(ExifFields(a), 16)| == 8 * 8 + 2 * 20 + 9
  {
    hide Le32, StrLen, Byte, Short, Long, Inline, OutOfLine, Text, Rationals, CString, TypeSize, ValidField, Payload,
         Payloads;
    ExifFirstPayloads(a);
    var fs := ExifFields(a);
    FourPayloads(fs, 8);
    FourPayloads(fs, 12);
  }

  lemma ExifEnd(a: ExifAttribute)
    requires ValidAttribute(a)
    ensures DirectoryEnd(ExifFields(a), ExifAt(a)) == GpsAt(a)
  {
    hide Le32, StrLen, Byte, Short, Long, Inline, OutOfLine, Text, Rationals, CString, TypeSize, ValidField, Payload;
    ExifMorePayloads(a);
    hide ExifAt;
    var fs := ExifFields(a);
    FourPayloads(fs, 16);
    assert |Payloads(fs, 21)| == |Payloads(fs, 20)|;
  }

  lemma GpsEnd(a: ExifAttribute)
    requires ValidAttribute(a) && a.enableGps
    ensures DirectoryEnd(GpsFields(a), GpsAt(a)) == Ifd1At(a)
  {
    hide Le32, StrLen, Byte, Short, Long, Inline, OutOfLine, Text, Rationals, CString, TypeSize, ValidField, Payload;
    var fs := GpsFields(a);
    FourPayloads(fs, 0);
    FourPayloads(fs, 4);
    assert |Payloads(fs, 9)| == |Payloads(fs, 8)| + |Payload(fs[8])|;
  }

  lemma Ifd1End(a: ExifAttribute, thumbSize: nat)
    requires ValidAttribute(a)
    ensures DirectoryEnd(Ifd1Fields(a, thumbSize), Ifd1At(a)) == ThumbAt(a)
  {
    hide Le32, StrLen, Byte, Short, Long, Inline, OutOfLine, Text, Rationals, CString, TypeSize, ValidField, Payload;
    var fs := Ifd1Fields(a, thumbSize);
    FourPayloads(fs, 0);
    FourPayloads(fs, 4);
    assert |Payloads(fs, 9)| == |Payloads(fs, 8)|;
  }
}
