/**
 The Exif processor: it fills the output buffer in place with two cursors, one over the
 directory entries and one over the values, and goes back to patch the GPS pointer and
 the link to the thumbnail's directory.
 */
module ExifProcessor {
  import opened Bytes
  import opened TiffDirectory
  import opened ExifFormat
  import opened Options
  import opened ExifRoundTrip
  import opened ExifDecoder
  import opened ExifWriter

  lemma KeepBefore(b0: seq<byte>, b1: seq<byte>, n: nat, at: nat, x: seq<byte>)
    requires n <= |b0| && Holds(b1, 0, b0[..n]) && Holds(b0, at, x) && at + |x| <= n
    ensures Holds(b1, at, x)
  {
    HoldsWithin(b1, 0, b0[..n], at, x);
  }

  lemma KeepProgress(b0: seq<byte>, b1: seq<byte>, n: nat, p: Plan, k: nat, cur: nat, off: nat)
    requires n <= |b0| && |b1| == |b0| && Holds(b1, 0, b0[..n])
    requires Progress(b0, p, k, cur, off) && p.start + off <= n
    ensures Progress(b1, p, k, cur, off)
  {
    hide Holds, Slots, Payloads, Le16;
    var base := PayloadBase(p.at, |p.fs|);
    KeepBefore(b0, b1, n, 0, p.before);
    KeepBefore(b0, b1, n, p.start + p.at, Le16(|p.fs|) + Slots(p.fs, k, base));
    KeepBefore(b0, b1, n, p.start + base, Payloads(p.fs, k));
  }

  lemma ProgressBefore(bytes: seq<byte>, p: Plan, k: nat, cur: nat, off: nat)
    requires Progress(bytes, p, k, cur, off)
    ensures Holds(bytes, 0, p.before)
  {
  }

  class NXExifProcessor {
    var exif: ExifAttribute
    var toHandle: bool
    var thumbnail: seq<byte>
    var outBuffer: array<byte>
    var outSize: nat

    constructor (attributes: ExifAttribute, destination: bool, jpeg: seq<byte>, buffer: array<byte>)
      ensures exif == attributes && toHandle == destination && thumbnail == jpeg && outBuffer == buffer
    {
      exif, toHandle, thumbnail, outBuffer, outSize := attributes, destination, jpeg, buffer, 0;
    }

    /** Room for everything but the thumbnail, and the thumbnail's bytes when there is one. */
    function OutBufferSize(): nat
      reads this
    {
      EXIF_FILE_SIZE + if exif.enableThumb then |thumbnail| else 0
    }

    /** Where the TIFF structure starts: after SOI (destination handles only), APP1, its length and the Exif header. */
    function TiffStart(): nat
      reads this
    {
      if toHandle then 12 else 10
    }

    /** A fresh zeroed buffer, or the destination handle's memory with its first bytes zeroed. */
    method AllocOutBuffer(destination: array<byte>)
      requires toHandle ==> destination.Length >= OutBufferSize()
      modifies this, destination
      ensures exif == old(exif) && toHandle == old(toHandle) && thumbnail == old(thumbnail)
      ensures if toHandle then outBuffer == destination
              else fresh(outBuffer) && outBuffer.Length == OutBufferSize()
      ensures outBuffer.Length >= OutBufferSize()
      ensures forall i :: 0 <= i < OutBufferSize() ==> outBuffer[i] == 0
    {
      var size := OutBufferSize();
      if !toHandle {
        outBuffer := new byte[size];
      } else {
        outBuffer := destination;
      }
      forall i | 0 <= i < size {
        outBuffer[i] := 0;
      }
    }

    /** Size and names: the first four entries of the 0th directory. */
    method WriteNameEntries(start: nat, cur0: nat, dataOff: nat, ghost p: Plan) returns (cur: nat, off: nat)
      requires ValidAttribute(exif) && start + ExifAt(exif) <= outBuffer.Length
      requires p == Plan(start, IFD0_AT, Ifd0Fields(exif), p.before)
      requires Progress(outBuffer[..], p, 0, cur0, dataOff) && dataOff == PayloadBase(IFD0_AT, Ifd0Count(exif))
      modifies outBuffer
      ensures Progress(outBuffer[..], p, 4, cur, off) && cur == cur0 + 4 * ENTRY_SIZE
      ensures off == dataOff + StrLen(exif.maker) + 1 + StrLen(exif.model) + 1
    {
      hide Holds, Progress, ChangedOnly, StrLen, Le32, RationalsBytes;
      var a := exif;
      cur := WriteValue(outBuffer, cur0, 0x0100, LONG, 1, a.width, p, 0, dataOff);
      cur := WriteValue(outBuffer, cur, 0x0101, LONG, 1, a.height, p, 1, dataOff);
      cur, off := WriteBytes(outBuffer, cur, 0x010F, ASCII, a.maker[..StrLen(a.maker) + 1], dataOff, start, p, 2);
      cur, off := WriteBytes(outBuffer, cur, 0x0110, ASCII, a.model[..StrLen(a.model) + 1], off, start, p, 3);
    }

    /** The 0th directory: nine entries, and a slot left open for the GPS pointer. */
    method WriteZerothIfd(start: nat, ghost p: Plan) returns (cur: nat, off: nat)
      requires ValidAttribute(exif) && start + ExifAt(exif) <= outBuffer.Length
      requires p == Plan(start, IFD0_AT, Ifd0Fields(exif), p.before) && |p.before| == start + IFD0_AT
      requires Holds(outBuffer[..], 0, p.before)
      modifies outBuffer
      ensures Progress(outBuffer[..], p, 9, cur, off)
      ensures cur == start + IFD0_AT + COUNT_SIZE + 9 * ENTRY_SIZE && off == ExifAt(exif)
    {
      hide Holds, Progress, ChangedOnly, StrLen, Le32, RationalsBytes;
      var a := exif;
      var n := if a.enableGps then 10 else 9;
      cur := OpenDirectory(outBuffer, start + IFD0_AT, n, p);
      off := IFD0_AT + COUNT_SIZE + n * ENTRY_SIZE + OFFSET_SIZE;
      cur, off := WriteNameEntries(start, cur, off, p);
      cur := WriteValue(outBuffer, cur, 0x0112, SHORT, 1, a.orientation, p, 4, off);
      cur, off := WriteBytes(outBuffer, cur, 0x0131, ASCII, a.software[..StrLen(a.software) + 1], off, start, p, 5);
      cur, off := WriteBytes(outBuffer, cur, 0x0132, ASCII, a.dateTime, off, start, p, 6);
      cur := WriteValue(outBuffer, cur, 0x0213, SHORT, 1, a.ycbcrPositioning, p, 7, off);
      cur := WriteValue(outBuffer, cur, 0x8769, LONG, 1, off, p, 8, off);
    }

    /** Exposure settings: the first four Exif entries. */
    method WriteExposureEntries(start: nat, off0: nat, cur0: nat, dataOff: nat, ghost p: Plan)
      returns (cur: nat, off: nat)
      requires ValidAttribute(exif) && off0 == ExifAt(exif) && start + GpsAt(exif) <= outBuffer.Length
      requires p == Plan(start, off0, ExifFields(exif), p.before)
      requires Progress(outBuffer[..], p, 0, cur0, dataOff) && dataOff == PayloadBase(off0, EXIF_COUNT)
      modifies outBuffer
      ensures Progress(outBuffer[..], p, 4, cur, off) && off == dataOff + 16
    {
      hide Holds, Progress, ChangedOnly, StrLen, Le32, RationalsBytes, Directory, ExifAt;
      var a := exif;
      cur, off := WriteRationals(outBuffer, cur0, 0x829A, RATIONAL, [a.exposureTime], dataOff, start, p, 0);
      cur, off := WriteRationals(outBuffer, cur, 0x829D, RATIONAL, [a.fnumber], off, start, p, 1);
      cur := WriteValue(outBuffer, cur, 0x8822, SHORT, 1, a.exposureProgram, p, 2, off);
      cur := WriteValue(outBuffer, cur, 0x8827, SHORT, 1, a.isoSpeedRating, p, 3, off);
    }

    /** The version and the two dates: the next three. */
    method WriteDateEntries(start: nat, off0: nat, cur0: nat, dataOff: nat, ghost p: Plan)
      returns (cur: nat, off: nat)
      requires ValidAttribute(exif) && off0 == ExifAt(exif) && start + GpsAt(exif) <= outBuffer.Length
      requires p == Plan(start, off0, ExifFields(exif), p.before)
      requires Progress(outBuffer[..], p, 4, cur0, dataOff) && dataOff == PayloadBase(off0, EXIF_COUNT) + 16
      modifies outBuffer
      ensures Progress(outBuffer[..], p, 7, cur, off) && off == dataOff + 40
    {
      hide Holds, Progress, ChangedOnly, StrLen, Le32, RationalsBytes, Directory, ExifAt;
      var a := exif;
      cur := WriteInline(outBuffer, cur0, 0x9000, UNDEFINED, a.exifVersion, p, 4, dataOff);
      cur, off := WriteBytes(outBuffer, cur, 0x9003, ASCII, a.dateTime, dataOff, start, p, 5);
      cur, off := WriteBytes(outBuffer, cur, 0x9004, ASCII, a.dateTime, off, start, p, 6);
    }

    /** APEX values: the next four. */
    method WriteApexEntries(start: nat, off0: nat, cur0: nat, dataOff: nat, ghost p: Plan)
      returns (cur: nat, off: nat)
      requires ValidAttribute(exif) && off0 == ExifAt(exif) && start + GpsAt(exif) <= outBuffer.Length
      requires p == Plan(start, off0, ExifFields(exif), p.before)
      requires Progress(outBuffer[..], p, 7, cur0, dataOff) && dataOff == PayloadBase(off0, EXIF_COUNT) + 56
      modifies outBuffer
      ensures Progress(outBuffer[..], p, 11, cur, off) && off == dataOff + 32
    {
      hide Holds, Progress, ChangedOnly, StrLen, Le32, RationalsBytes, Directory, ExifAt;
      var a := exif;
      cur, off := WriteRationals(outBuffer, cur0, 0x9201, SRATIONAL, [a.shutterSpeed], dataOff, start, p, 7);
      cur, off := WriteRationals(outBuffer, cur, 0x9202, RATIONAL, [a.aperture], off, start, p, 8);
      cur, off := WriteRationals(outBuffer, cur, 0x9203, SRATIONAL, [a.brightness], off, start, p, 9);
      cur, off := WriteRationals(outBuffer, cur, 0x9204, SRATIONAL, [a.exposureBias], off, start, p, 10);
    }

    /** Largest aperture, metering, flash and focal length: the next four. */
    method WriteLensEntries(start: nat, off0: nat, cur0: nat, dataOff: nat, ghost p: Plan)
      returns (cur: nat, off: nat)
      requires ValidAttribute(exif) && off0 == ExifAt(exif) && start + GpsAt(exif) <= outBuffer.Length
      requires p == Plan(start, off0, ExifFields(exif), p.before)
      requires Progress(outBuffer[..], p, 11, cur0, dataOff) && dataOff == PayloadBase(off0, EXIF_COUNT) + 88
      modifies outBuffer
      ensures Progress(outBuffer[..], p, 15, cur, off) && off == dataOff + 16
    {
      hide Holds, Progress, ChangedOnly, StrLen, Le32, RationalsBytes, Directory, ExifAt;
      var a := exif;
      cur, off := WriteRationals(outBuffer, cur0, 0x9205, RATIONAL, [a.maxAperture], dataOff, start, p, 11);
      cur := WriteValue(outBuffer, cur, 0x9207, SHORT, 1, a.meteringMode, p, 12, off);
      cur := WriteValue(outBuffer, cur, 0x9209, SHORT, 1, a.flash, p, 13, off);
      cur, off := WriteRationals(outBuffer, cur, 0x920A, RATIONAL, [a.focalLength], off, start, p, 14);
    }

    /** Colour space, dimensions and modes: the last six. */
    method WriteImageEntries(cur0: nat, ghost off: nat, ghost p: Plan, ghost a: ExifAttribute) returns (cur: nat)
      requires ValidAttribute(a) && exif == a.(userComment := exif.userComment) && p.fs == ExifFields(a)
      requires Progress(outBuffer[..], p, 16, cur0, off)
      modifies outBuffer
      ensures Progress(outBuffer[..], p, EXIF_COUNT, cur, off)
    {
      hide Holds, Progress, ChangedOnly, StrLen, Le32, RationalsBytes, Directory, ExifAt;
      cur := WriteValue(outBuffer, cur0, 0xA001, SHORT, 1, exif.colorSpace, p, 16, off);
      cur := WriteValue(outBuffer, cur, 0xA002, LONG, 1, exif.width, p, 17, off);
      cur := WriteValue(outBuffer, cur, 0xA003, LONG, 1, exif.height, p, 18, off);
      cur := WriteValue(outBuffer, cur, 0xA402, LONG, 1, exif.exposureMode, p, 19, off);
      cur := WriteValue(outBuffer, cur, 0xA403, LONG, 1, exif.whiteBalance, p, 20, off);
      cur := WriteValue(outBuffer, cur, 0xA406, LONG, 1, exif.sceneCaptureType, p, 21, off);
    }

    /** The Exif directory. On the way the user comment is shifted to make room for its character code. */
    method WriteExifIfd(start: nat, off0: nat, ghost p: Plan) returns (off: nat)
      requires ValidAttribute(exif) && off0 == ExifAt(exif) && start + GpsAt(exif) <= outBuffer.Length
      requires p == Plan(start, off0, ExifFields(exif), p.before) && |p.before| == start + off0
      requires Holds(outBuffer[..], 0, p.before)
      modifies this`exif, outBuffer
      ensures exif == old(exif).(userComment := Commented(old(exif)))
      ensures off == GpsAt(old(exif))
      ensures Holds(outBuffer[..], 0, p.before)
      ensures Holds(outBuffer[..], start + off0, Directory(p.fs, off0, 0))
    {
      hide Holds, Progress, ChangedOnly, StrLen, Le32, RationalsBytes, Directory, ExifAt;
      var a := exif;
      var cur := OpenDirectory(outBuffer, start + off0, EXIF_COUNT, p);
      off := off0 + COUNT_SIZE + EXIF_COUNT * ENTRY_SIZE + OFFSET_SIZE;
      cur, off := WriteExposureEntries(start, off0, cur, off, p);
      cur, off := WriteDateEntries(start, off0, cur, off, p);
      cur, off := WriteApexEntries(start, off0, cur, off, p);
      cur, off := WriteLensEntries(start, off0, cur, off, p);

      MoveComment();
      var size := StrLen(exif.userComment) + 1 + |COMMENT_CODE|;
      cur, off := WriteBytes(outBuffer, cur, 0x9286, UNDEFINED, exif.userComment[..size], off, start, p, 15);

      cur := WriteImageEntries(cur, off, p, a);
      WriteLink(outBuffer, cur, 0, p, off);
      ProgressBefore(outBuffer[..], p, EXIF_COUNT, cur, off);
    }

    /** The comment and its NUL move up by eight bytes and the character code takes their place. */
    method MoveComment()
      requires ValidAttribute(exif)
      modifies this`exif
      ensures exif == old(exif).(userComment := Commented(old(exif)))
      ensures StrLen(exif.userComment) == 0 && exif.userComment[..9] == StoredComment(old(exif))
    {
      hide StrLen;
      var comment := exif.userComment;
      var n := StrLen(comment) + 1;
      CommentMoved(exif);
      var moved := comment[..8] + comment[..n] + comment[8 + n..];
      exif := exif.(userComment := COMMENT_CODE + moved[8..]);
    }

    /** The GPS directory, with the processing method when there is one. */
    method WriteGpsIfd(start: nat, off0: nat, ghost p: Plan) returns (off: nat)
      requires ValidAttribute(exif) && exif.enableGps && off0 == GpsAt(exif)
      requires start + Ifd1At(exif) <= outBuffer.Length
      requires p == Plan(start, off0, GpsFields(exif), p.before) && |p.before| == start + off0
      requires Holds(outBuffer[..], 0, p.before)
      modifies outBuffer
      ensures off == Ifd1At(exif)
      ensures Holds(outBuffer[..], 0, p.before)
      ensures Holds(outBuffer[..], start + off0, Directory(p.fs, off0, 0))
    {
      hide Holds, Progress, ChangedOnly, StrLen, Le32, RationalsBytes, Directory, GpsAt;
      var a := exif;
      var n := if a.gpsProcessingMethod[0] == 0 then 9 else 10;
      var cur := OpenDirectory(outBuffer, start + off0, n, p);
      off := off0 + COUNT_SIZE + n * ENTRY_SIZE + OFFSET_SIZE;
      cur, off := WriteGpsPosition(start, off0, cur, off, p);
      var k := 8;
      var size := StrLen(a.gpsProcessingMethod);
      MethodLength(a.gpsProcessingMethod);
      if size > 0 {
        if size > 100 {
          size := 100;
        }
        cur, off := WriteBytes(outBuffer, cur, 0x001B, UNDEFINED,
                               ASCII_PREFIX + a.gpsProcessingMethod[..size], off, start, p, k);
        k := k + 1;
      }
      cur, off := WriteBytes(outBuffer, cur, 0x001D, ASCII, a.gpsDatestamp, off, start, p, k);
      WriteLink(outBuffer, cur, 0, p, off);
      ProgressBefore(outBuffer[..], p, n, cur, off);
    }

    /** The first eight GPS entries. */
    method WriteGpsPosition(start: nat, off0: nat, cur0: nat, dataOff: nat, ghost p: Plan)
      returns (cur: nat, off: nat)
      requires ValidAttribute(exif) && exif.enableGps && off0 == GpsAt(exif)
      requires start + Ifd1At(exif) <= outBuffer.Length
      requires p == Plan(start, off0, GpsFields(exif), p.before)
      requires Progress(outBuffer[..], p, 0, cur0, dataOff) && dataOff == PayloadBase(off0, GpsCount(exif))
      modifies outBuffer
      ensures Progress(outBuffer[..], p, 8, cur, off) && off == dataOff + 80
    {
      hide Holds, Progress, ChangedOnly, StrLen, Le32, RationalsBytes, GpsAt;
      var a := exif;
      cur := WriteInline(outBuffer, cur0, 0x0000, BYTE, a.gpsVersionId, p, 0, dataOff);
      cur := WriteInline(outBuffer, cur, 0x0001, ASCII, a.gpsLatitudeRef, p, 1, dataOff);
      cur, off := WriteRationals(outBuffer, cur, 0x0002, RATIONAL, a.gpsLatitude, dataOff, start, p, 2);
      cur := WriteInline(outBuffer, cur, 0x0003, ASCII, a.gpsLongitudeRef, p, 3, off);
      cur, off := WriteRationals(outBuffer, cur, 0x0004, RATIONAL, a.gpsLongitude, off, start, p, 4);
      cur := WriteValue(outBuffer, cur, 0x0005, BYTE, 1, a.gpsAltitudeRef, p, 5, off);
      cur, off := WriteRationals(outBuffer, cur, 0x0006, RATIONAL, [a.gpsAltitude], off, start, p, 6);
      cur, off := WriteRationals(outBuffer, cur, 0x0007, RATIONAL, a.gpsTimestamp, off, start, p, 7);
    }

    /** Size, compression, orientation and resolution: the first six entries of the 1st directory. */
    method WriteThumbnailEntries(start: nat, off0: nat, cur0: nat, dataOff: nat, ghost p: Plan) returns (cur: nat, off: nat)
      requires ValidAttribute(exif) && off0 == Ifd1At(exif) && start + ThumbAt(exif) <= outBuffer.Length
      requires p == Plan(start, off0, Ifd1Fields(exif, |thumbnail|), p.before)
      requires Progress(outBuffer[..], p, 0, cur0, dataOff) && dataOff == PayloadBase(off0, IFD1_COUNT)
      modifies outBuffer
      ensures Progress(outBuffer[..], p, 6, cur, off) && off == dataOff + 16
    {
      hide Holds, Progress, ChangedOnly, StrLen, Le32, RationalsBytes, Directory, Ifd1At;
      var a := exif;
      cur := WriteValue(outBuffer, cur0, 0x0100, LONG, 1, a.widthThumb, p, 0, dataOff);
      cur := WriteValue(outBuffer, cur, 0x0101, LONG, 1, a.heightThumb, p, 1, dataOff);
      cur := WriteValue(outBuffer, cur, 0x0103, SHORT, 1, a.compressionScheme, p, 2, dataOff);
      cur := WriteValue(outBuffer, cur, 0x0112, SHORT, 1, a.orientation, p, 3, dataOff);
      cur, off := WriteRationals(outBuffer, cur, 0x011A, RATIONAL, [a.xResolution], dataOff, start, p, 4);
      cur, off := WriteRationals(outBuffer, cur, 0x011B, RATIONAL, [a.yResolution], off, start, p, 5);
    }

    /** The 1st directory and the thumbnail's bytes after it. */
    method WriteFirstIfd(start: nat, off0: nat, ghost p: Plan) returns (off: nat)
      requires ValidAttribute(exif) && off0 == Ifd1At(exif)
      requires start + ThumbAt(exif) + |thumbnail| <= outBuffer.Length
      requires p == Plan(start, off0, Ifd1Fields(exif, |thumbnail|), p.before) && |p.before| == start + off0
      requires Holds(outBuffer[..], 0, p.before)
      modifies outBuffer
      ensures off == ThumbAt(exif) + |thumbnail|
      ensures Holds(outBuffer[..], 0, p.before)
      ensures Holds(outBuffer[..], start + off0, Directory(p.fs, off0, 0))
      ensures Holds(outBuffer[..], start + ThumbAt(exif), thumbnail)
    {
      hide Holds, Progress, ChangedOnly, StrLen, Le32, RationalsBytes, Directory, Ifd1At;
      var a := exif;
      var cur := OpenDirectory(outBuffer, start + off0, IFD1_COUNT, p);
      off := off0 + COUNT_SIZE + IFD1_COUNT * ENTRY_SIZE + OFFSET_SIZE;
      cur, off := WriteThumbnailEntries(start, off0, cur, off, p);
      cur := WriteValue(outBuffer, cur, 0x0128, SHORT, 1, a.resolutionUnit, p, 6, off);
      cur := WriteValue(outBuffer, cur, 0x0201, LONG, 1, off, p, 7, off);
      cur := WriteValue(outBuffer, cur, 0x0202, LONG, 1, |thumbnail|, p, 8, off);
      WriteLink(outBuffer, cur, 0, p, off);
      ProgressBefore(outBuffer[..], p, IFD1_COUNT, cur, off);
      Ifd1End(a, |thumbnail|);
      ghost var b := outBuffer[..];
      MemCpy(outBuffer, start + off, thumbnail);
      HoldsFrame(b, outBuffer[..], start + off, start + off + |thumbnail|, 0, p.before);
      HoldsFrame(b, outBuffer[..], start + off, start + off + |thumbnail|, start + off0, Directory(p.fs, off0, 0));
      off := off + |thumbnail|;
    }

    /** SOI for a destination handle, room for APP1 and its length, the Exif and TIFF headers. */
    method WriteHeaders() returns (start: nat)
      requires outBuffer.Length >= 20
      modifies outBuffer
      ensures start == TiffStart()
      ensures toHandle ==> Holds(outBuffer[..], 0, SOI)
      ensures Holds(outBuffer[..], start - 6, EXIF_HEADER)
      ensures Holds(outBuffer[..], start, TIFF_HEADER)
    {
      var cur := 0;
      if toHandle {
        MemCpy(outBuffer, cur, SOI);
        cur := cur + 2;
      }
      cur := cur + 4;
      MemCpy(outBuffer, cur, EXIF_HEADER);
      cur := cur + 6;
      MemCpy(outBuffer, cur, TIFF_HEADER);
      start := cur;
    }

    /** Patches the GPS pointer, now that its target is known, and writes the directory. */
    method WriteGps(start: nat, pointer: nat, off0: nat, ghost p: Plan, ghost a: ExifAttribute) returns (off: nat)
      requires ValidAttribute(exif) && ValidAttribute(a) && a.enableGps && exif.enableGps
      requires GpsFields(exif) == GpsFields(a) && GpsAt(exif) == off0 == GpsAt(a) && Ifd1At(exif) == Ifd1At(a)
      requires p == Plan(start, IFD0_AT, Ifd0Fields(a), p.before) && start + Ifd1At(a) <= outBuffer.Length
      requires Progress(outBuffer[..], p, 9, pointer, ExifAt(a))
      requires Holds(outBuffer[..], start + ExifAt(a), Directory(ExifFields(a), ExifAt(a), 0))
      modifies outBuffer
      ensures MainDone(outBuffer[..], p, a, pointer + ENTRY_SIZE) && off == Ifd1At(a)
    {
      hide Holds, Progress, ChangedOnly, StrLen, Le32, Directory, ExifFields, GpsFields, DirectoryEnd,
           ExifAt, GpsAt, Ifd1At, Ifd0Fields;
      OffsetsAreSmall(a);
      Ifd0Pointers(a);
      ExifEnd(a);
      ghost var dir := Directory(ExifFields(a), ExifAt(a), 0);
      ghost var b0 := outBuffer[..];
      PointerInFront(b0, p, 9, pointer, ExifAt(a));
      var next := WriteValue(outBuffer, pointer, 0x8825, LONG, 1, off0, p, 9, ExifAt(a));
      HoldsFrame(b0, outBuffer[..], pointer, next, start + ExifAt(a), dir);
      GpsEnd(a);
      ghost var b1 := outBuffer[..];
      ghost var pg := Plan(start, off0, GpsFields(a), b1[..start + off0]);
      HoldsPrefix(b1, start + off0);
      off := WriteGpsIfd(start, off0, pg);
      KeepProgress(b1, outBuffer[..], start + off0, p, 10, next, ExifAt(a));
      KeepBefore(b1, outBuffer[..], start + off0, start + ExifAt(a), dir);
    }

    /** The 0th, Exif and GPS directories; the GPS pointer is patched once its target is known. */
    method WriteMainIfds(start: nat, ghost p: Plan) returns (next: nat, off: nat)
      requires ValidAttribute(exif) && start + Ifd1At(exif) <= outBuffer.Length
      requires p == Plan(start, IFD0_AT, Ifd0Fields(exif), p.before) && |p.before| == start + IFD0_AT
      requires Holds(outBuffer[..], 0, p.before)
      modifies this`exif, outBuffer
      ensures exif == old(exif).(userComment := Commented(old(exif)))
      ensures MainDone(outBuffer[..], p, old(exif), next) && off == Ifd1At(old(exif))
    {
      hide Holds, Progress, ChangedOnly, StrLen, Le32, Directory, ExifFields, GpsFields, DirectoryEnd, ExifAt, GpsAt,
           Ifd1At, Ifd0Fields, Commented;
      ghost var a := exif;
      OffsetsAreSmall(a);
      Ifd0Pointers(a);
      ExifEnd(a);
      next, off := WriteZerothIfd(start, p);
      var gpsPointer := next;
      if exif.enableGps {
        next := next + ENTRY_SIZE;
      }
      ghost var b0 := outBuffer[..];
      ghost var pe := Plan(start, off, ExifFields(a), b0[..start + off]);
      HoldsPrefix(b0, start + off);
      off := WriteExifIfd(start, off, pe);
      KeepProgress(b0, outBuffer[..], start + ExifAt(a), p, 9, gpsPointer, ExifAt(a));
      if exif.enableGps {
        SameGps(a, exif);
        off := WriteGps(start, gpsPointer, off, p, a);
      } else {
        NoGpsPart(a);
      }
    }

    /** The link to the thumbnail's directory, and the directory itself unless it makes the structure too long. */
    method WriteThumbnail(start: nat, next: nat, off0: nat, ghost p: Plan, ghost a: ExifAttribute) returns (off: nat)
      requires ValidAttribute(a) && exif == a.(userComment := Commented(a)) && off0 == Ifd1At(a)
      requires start == p.start && start <= 12 && OutBufferSize() <= outBuffer.Length
      requires MainDone(outBuffer[..], p, a, next) && p.fs == Ifd0Fields(a) && p.at == IFD0_AT
      modifies outBuffer
      ensures off == TiffSize(a, thumbnail)
      ensures Holds(outBuffer[..], 0, p.before)
      ensures Holds(outBuffer[..], start + IFD0_AT, Directory(Ifd0Fields(a), IFD0_AT, NextIfd(a, thumbnail)))
      ensures ImageAfterHeader(outBuffer[..], start, a, thumbnail)
    {
      hide Holds, Progress, ChangedOnly, StrLen, Le32, Directory, Ifd0Fields, Ifd1Fields, ExifFields, GpsFields,
           DirectoryEnd, ExifAt, GpsAt, Ifd1At, ThumbAt, MainDone;
      OffsetsAreSmall(a);
      SameGps(a, exif);
      off := off0;
      if exif.enableThumb && |thumbnail| > 0 {
        PatchLink(outBuffer, next, off, p, a);
        ghost var b := outBuffer[..];
        ghost var p1 := Plan(start, off, Ifd1Fields(a, |thumbnail|), b[..start + off]);
        HoldsPrefix(b, start + off);
        off := WriteFirstIfd(start, off, p1);
        MainDoneKept(b, outBuffer[..], p, a, next);
        if off > EXIF_LIMIT_SIZE {
          off := off0;
          PatchLink(outBuffer, next, 0, p, a);
        } else {
          Ifd0End(a);
          KeepBefore(b, outBuffer[..], start + off0, start + IFD0_AT, Directory(Ifd0Fields(a), IFD0_AT, off0));
        }
      } else {
        PatchLink(outBuffer, next, 0, p, a);
      }
      MainDoneParts(outBuffer[..], p, a, next);
    }

    /**
     Writes the APP1 segment of a picture: the buffer holds, at its place, exactly the TIFF
     structure that the attributes and the thumbnail define.
     */
    method ProcessExif()
      requires ValidAttribute(exif) && |thumbnail| < 0x8000_0000
      requires OutBufferSize() <= outBuffer.Length
      modifies this, outBuffer
      ensures exif == old(exif).(userComment := Commented(old(exif)))
      ensures toHandle == old(toHandle) && thumbnail == old(thumbnail) && outBuffer == old(outBuffer)
      ensures Holds(outBuffer[..], TiffStart(), TiffImage(old(exif), thumbnail))
      ensures toHandle ==> Holds(outBuffer[..], 0, [0xFF, 0xD8])
      ensures Holds(outBuffer[..], TiffStart() - 10, APP1_MARKER + App1Length(TiffSize(old(exif), thumbnail)) + EXIF_HEADER)
      ensures outSize == 12 + TiffSize(old(exif), thumbnail)
      ensures outSize - 12 <= 65527 ==>
                var seg := outBuffer[TiffStart() - 10..];
                ReadApp1(seg).Some? && Tells(ReadApp1(seg).value, outSize - 12, old(exif), thumbnail)
    {
      hide Holds, Progress, ChangedOnly, StrLen, Le32, Directory, Ifd0Fields, Ifd1Fields, ExifFields, GpsFields,
           DirectoryEnd, ExifAt, GpsAt, Ifd1At, ThumbAt, MainDone, TiffImage, ReadApp1, Tells,
           App1Length, TiffSize, NextIfd, ThumbKept, ImageAfterHeader;
      ghost var a := exif;
      OffsetsAreSmall(a);
      var start := WriteHeaders();
      ghost var b := outBuffer[..];
      ghost var p := Plan(start, IFD0_AT, Ifd0Fields(a), b[..start + IFD0_AT]);
      HoldsPrefix(b, start + IFD0_AT);
      var next, off := WriteMainIfds(start, p);
      off := WriteThumbnail(start, next, off, p, a);
      ghost var b1 := outBuffer[..];
      MainImage(b, b1, start, a, thumbnail);
      WriteApp1(start, off, b, a);
    }

    /** The marker, the length and the size in front of a finished structure. */
    method WriteApp1(start: nat, off: nat, ghost b: seq<byte>, ghost a: ExifAttribute)
      requires ValidAttribute(a) && off == TiffSize(a, thumbnail)
      requires start == TiffStart() && start + 8 <= |b| && (toHandle ==> Holds(b, 0, SOI))
      requires Holds(b, start - 6, EXIF_HEADER) && Holds(outBuffer[..], 0, b[..start + 8])
      requires Holds(outBuffer[..], start, TiffImage(a, thumbnail))
      modifies this`outSize, outBuffer
      ensures Holds(outBuffer[..], start, TiffImage(a, thumbnail))
      ensures toHandle ==> Holds(outBuffer[..], 0, SOI)
      ensures Holds(outBuffer[..], start - 10, APP1_MARKER + App1Length(off) + EXIF_HEADER)
      ensures outSize == 12 + off
      ensures off <= 65527 ==>
                var seg := outBuffer[start - 10..];
                ReadApp1(seg).Some? && Tells(ReadApp1(seg).value, off, a, thumbnail)
    {
      hide Holds, ChangedOnly, TiffImage, TiffSize, ReadApp1, Tells, App1Length;
      ghost var b1 := outBuffer[..];
      HoldsSlice(b1, 0, b[..start + 8]);
      var app1 := start - 10;
      MemCpy(outBuffer, app1, APP1_MARKER);
      ghost var b2 := outBuffer[..];
      MemCpy(outBuffer, app1 + 2, App1Length(off));
      outSize := 2 + 2 + 2 + 6 + off;
      App1Written(b, b1, b2, outBuffer[..], start, toHandle, App1Length(off), TiffImage(a, thumbnail));
      if off <= 65527 {
        SegmentTells(outBuffer[..], app1, a, thumbnail);
      }
    }
  }

  /** The two big-endian bytes of the segment length for a TIFF structure of the given size. */
  function App1Length(tiffSize: nat): (b: seq<byte>)
    ensures |b| == 2
  {
    var n := 10 + tiffSize - 2;
    [n / 256 % 256, n % 256]
  }

  /**
   The segment length is the number of bytes after SOI and the marker exactly when the TIFF structure
   has at most 65527 bytes; the writer lets it grow to 65536.
   */
  lemma App1LengthIsExact(tiffSize: nat)
    requires tiffSize <= EXIF_LIMIT_SIZE
    ensures var b := App1Length(tiffSize);
            256 * (b[0] as int) + b[1] as int == (12 + tiffSize) - 4 <==> tiffSize <= 65527
  {
  }

  /** A reader that goes by a right length finds in the segment what the record and the thumbnail hold. */
  lemma SegmentTells(buf: seq<byte>, at: nat, a: ExifAttribute, thumb: seq<byte>)
    requires ValidAttribute(a) && TiffSize(a, thumb) <= 65527
    requires Holds(buf, at, APP1_MARKER + App1Length(TiffSize(a, thumb)) + EXIF_HEADER)
    requires Holds(buf, at + 10, TiffImage(a, thumb))
    ensures at <= |buf| && ReadApp1(buf[at..]).Some?
    ensures Tells(ReadApp1(buf[at..]).value, TiffSize(a, thumb), a, thumb)
  {
    hide Holds, TiffImage, TiffSize, Tells, ReadApp1;
    TiffImageSize(a, thumb);
    App1LengthIsExact(TiffSize(a, thumb));
    ReadSegment(buf, at, App1Length(TiffSize(a, thumb)), a, thumb);
  }

  /** For every record with a thumbnail there is a size of the thumbnail that the writer keeps and whose length overflows. */
  lemma LongThumbnailOverflows(a: ExifAttribute, thumb: seq<byte>)
    requires ValidAttribute(a) && a.enableThumb && |thumb| == 65528 - ThumbAt(a)
    ensures ThumbKept(a, thumb) && TiffSize(a, thumb) == 65528 && App1Length(TiffSize(a, thumb)) == [0, 0]
  {
    OffsetsAreSmall(a);
    hide ThumbAt;
    assert 10 + 65528 - 2 == 0x1_0000;
  }

  /** Such a record and thumbnail. */
  lemma OverflowExample()
    ensures var a := ShortMaker(0x4C, 0x47);
            ValidAttribute(a) && ThumbAt(a) < 65528 && App1Length(TiffSize(a, Zeros(65528 - ThumbAt(a)))) == [0, 0]
  {
    hide ThumbAt, ValidAttribute;
    var a := ShortMaker(0x4C, 0x47);
    ShortMakerIsValid(0x4C, 0x47);
    OffsetsAreSmall(a);
    LongThumbnailOverflows(a, Zeros(65528 - ThumbAt(a)));
  }

  /** The size of what was written; the reported size also counts SOI when there is none. */
  lemma OutSizeIsExact(a: ExifAttribute, thumb: seq<byte>, toHandle: bool)
    requires ValidAttribute(a)
    ensures var written := (if toHandle then 12 else 10) + |TiffImage(a, thumb)|;
            written == 12 + TiffSize(a, thumb) <==> toHandle
  {
    TiffImageSize(a, thumb);
  }

  /** Everything of the structure behind the 0th directory. */
  ghost predicate ImageAfterHeader(b: seq<byte>, start: nat, a: ExifAttribute, thumb: seq<byte>)
    requires ValidAttribute(a)
  {
    && Holds(b, start + ExifAt(a), Directory(ExifFields(a), ExifAt(a), 0))
    && (a.enableGps ==> Holds(b, start + GpsAt(a), Directory(GpsFields(a), GpsAt(a), 0)))
    && (ThumbKept(a, thumb) ==>
          && Holds(b, start + Ifd1At(a), Directory(Ifd1Fields(a, |thumb|), Ifd1At(a), 0))
          && Holds(b, start + ThumbAt(a), thumb))
  }

  /** An entry yet to be written lies in front of the values. */
  lemma PointerInFront(b: seq<byte>, p: Plan, k: nat, cur: nat, off: nat)
    requires Progress(b, p, k, cur, off) && k < |p.fs|
    ensures cur + ENTRY_SIZE + OFFSET_SIZE <= p.start + off
  {
  }

  lemma HoldsPrefix(b: seq<byte>, n: nat)
    requires n <= |b|
    ensures Holds(b, 0, b[..n])
  {
  }

  /** Moving the user comment changes nothing that the GPS or thumbnail directories use. */
  lemma SameGps(a: ExifAttribute, b: ExifAttribute)
    requires ValidAttribute(a) && b == a.(userComment := Commented(a))
    ensures ValidAttribute(b) && GpsFields(b) == GpsFields(a) && GpsAt(b) == GpsAt(a) && Ifd1At(b) == Ifd1At(a)
    ensures ThumbAt(b) == ThumbAt(a) && forall n: nat :: Ifd1Fields(b, n) == Ifd1Fields(a, n)
  {
  }

  /** The first three directories are complete but for the link to the thumbnail's, which is at `next`. */
  ghost predicate MainDone(b: seq<byte>, p: Plan, a: ExifAttribute, next: nat)
    requires ValidAttribute(a)
  {
    && Progress(b, p, |p.fs|, next, ExifAt(a))
    && Holds(b, p.start + ExifAt(a), Directory(ExifFields(a), ExifAt(a), 0))
    && (a.enableGps ==> Holds(b, p.start + GpsAt(a), Directory(GpsFields(a), GpsAt(a), 0)))
  }

  /** Patches the link after the 0th directory's entries. */
  method PatchLink(buf: array<byte>, next: nat, link: nat, ghost p: Plan, ghost a: ExifAttribute)
    requires ValidAttribute(a) && MainDone(buf[..], p, a, next)
    requires p.fs == Ifd0Fields(a) && p.at == IFD0_AT
    modifies buf
    ensures MainDone(buf[..], p, a, next)
    ensures Holds(buf[..], p.start + IFD0_AT, Directory(Ifd0Fields(a), IFD0_AT, link))
    ensures ChangedOnly(old(buf[..]), buf[..], next, next + OFFSET_SIZE)
  {
    hide Holds, ChangedOnly, Le32, Directory, Ifd0Fields, ExifFields, GpsFields, Ifd1At, Payloads, Slots;
    OffsetsAreSmall(a);
    WriteLink(buf, next, link, p, ExifAt(a));
    ghost var b, b' := old(buf[..]), buf[..];
    hide Progress, ExifAt, GpsAt;
    HoldsFrame(b, b', next, next + OFFSET_SIZE, p.start + ExifAt(a), Directory(ExifFields(a), ExifAt(a), 0));
    if a.enableGps {
      HoldsFrame(b, b', next, next + OFFSET_SIZE, p.start + GpsAt(a), Directory(GpsFields(a), GpsAt(a), 0));
    }
  }

  lemma MainDoneKept(b: seq<byte>, b': seq<byte>, p: Plan, a: ExifAttribute, next: nat)
    requires ValidAttribute(a) && MainDone(b, p, a, next) && |b'| == |b|
    requires p.start + Ifd1At(a) <= |b| && Holds(b', 0, b[..p.start + Ifd1At(a)])
    ensures MainDone(b', p, a, next)
  {
    hide Holds, Progress, Directory, ExifFields, GpsFields, DirectoryEnd, ExifAt, GpsAt, Ifd1At;
    OffsetsAreSmall(a);
    ExifEnd(a);
    var n := p.start + Ifd1At(a);
    KeepProgress(b, b', n, p, |p.fs|, next, ExifAt(a));
    KeepBefore(b, b', n, p.start + ExifAt(a), Directory(ExifFields(a), ExifAt(a), 0));
    if a.enableGps {
      GpsEnd(a);
      KeepBefore(b, b', n, p.start + GpsAt(a), Directory(GpsFields(a), GpsAt(a), 0));
    }
  }

  lemma MainDoneParts(b: seq<byte>, p: Plan, a: ExifAttribute, next: nat)
    requires ValidAttribute(a) && MainDone(b, p, a, next)
    ensures Holds(b, 0, p.before)
    ensures Holds(b, p.start + ExifAt(a), Directory(ExifFields(a), ExifAt(a), 0))
    ensures a.enableGps ==> Holds(b, p.start + GpsAt(a), Directory(GpsFields(a), GpsAt(a), 0))
  {
  }

  lemma MainImage(b: seq<byte>, b1: seq<byte>, start: nat, a: ExifAttribute, thumb: seq<byte>)
    requires ValidAttribute(a) && Holds(b, start, TIFF_HEADER)
    requires start + IFD0_AT <= |b| && Holds(b1, 0, b[..start + IFD0_AT])
    requires Holds(b1, start + IFD0_AT, Directory(Ifd0Fields(a), IFD0_AT, NextIfd(a, thumb)))
    requires ImageAfterHeader(b1, start, a, thumb)
    ensures Holds(b1, start, TiffImage(a, thumb))
  {
    hide Holds, Directory, Ifd0Fields, Ifd1Fields, ExifFields, GpsFields, ExifAt, GpsAt, Ifd1At, ThumbAt, TiffImage;
    KeepBefore(b, b1, start + IFD0_AT, start, TIFF_HEADER);
    PartsMakeImage(b1, start, a, thumb);
  }

  /** The marker and length leave the rest of the segment as it was. */
  lemma App1Written(b: seq<byte>, b1: seq<byte>, b2: seq<byte>, b3: seq<byte>, start: nat, toHandle: bool,
                    length: seq<byte>, image: seq<byte>)
    requires start == (if toHandle then 12 else 10) && start + 8 <= |b| && |length| == 2
    requires toHandle ==> Holds(b, 0, SOI)
    requires Holds(b, start - 6, EXIF_HEADER) && Holds(b1, 0, b[..start + 8]) && Holds(b1, start, image)
    requires Holds(b2, start - 10, APP1_MARKER) && ChangedOnly(b1, b2, start - 10, start - 8)
    requires Holds(b3, start - 8, length) && ChangedOnly(b2, b3, start - 8, start - 6)
    ensures Holds(b3, start, image) && (toHandle ==> Holds(b3, 0, SOI))
    ensures Holds(b3, start - 10, APP1_MARKER + length + EXIF_HEADER)
  {
    hide Holds, ChangedOnly;
    KeepBefore(b, b1, start + 8, start - 6, EXIF_HEADER);
    HoldsFrame(b1, b2, start - 10, start - 8, start - 6, EXIF_HEADER);
    HoldsFrame(b2, b3, start - 8, start - 6, start - 6, EXIF_HEADER);
    HoldsFrame(b2, b3, start - 8, start - 6, start - 10, APP1_MARKER);
    HoldsFrame(b1, b2, start - 10, start - 8, start, image);
    HoldsFrame(b2, b3, start - 8, start - 6, start, image);
    HoldsJoin(b3, start - 10, APP1_MARKER, length);
    HoldsJoin(b3, start - 10, APP1_MARKER + length, EXIF_HEADER);
    if toHandle {
      KeepBefore(b, b1, start + 8, 0, SOI);
      HoldsFrame(b1, b2, start - 10, start - 8, 0, SOI);
      HoldsFrame(b2, b3, start - 8, start - 6, 0, SOI);
    }
  }

  /** The writer's test for a processing method agrees with its length. */
  lemma MethodLength(s: seq<byte>)
    requires s != []
    ensures StrLen(s) > 0 <==> s[0] != 0
  {
  }

  lemma CommentMoved(a: ExifAttribute)
    requires ValidAttribute(a)
    ensures var c, n := a.userComment, StrLen(a.userComment) + 1;
            (c[..8] + c[..n] + c[8 + n..])[8..] == CString(c) + c[8 + n..]
    ensures StrLen(Commented(a)) == 0 && Commented(a)[..9] == StoredComment(a)
    ensures Commented(a) == COMMENT_CODE + (CString(a.userComment) + a.userComment[8 + |CString(a.userComment)|..])
  {
    hide StrLen;
    NoText(Commented(a));
    assert Commented(a)[..9] == COMMENT_CODE + CString(a.userComment)[..1];
  }

  /** The user comment array after the move. */
  function Commented(a: ExifAttribute): (c: seq<byte>)
    requires ValidAttribute(a)
    ensures |c| == 150
  {
    COMMENT_CODE + CString(a.userComment) + a.userComment[8 + |CString(a.userComment)|..]
  }
}
