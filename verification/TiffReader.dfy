/**
 A reader for the directory structure of section 2 of TIFF 6.0 with the Exif and
 GPS pointers of section 4.6.3 of Exif 2.2, and the proof that it reads back any
 directory laid out by module TiffDirectory.
 */
module TiffReader {
  import opened Bytes
  import opened Options
  import opened TiffDirectory

  /** What a reader learns from one entry: `data` holds the values' bytes, wherever they were. */
  datatype Record = Record(tag: nat, typ: nat, count: nat, data: seq<byte>)

  /** Values of at most four bytes are in the entry, longer ones at the offset it holds. */
  function ReadEntry(img: seq<byte>, at: nat): Option<Record> {
    if at + ENTRY_SIZE > |img| then None else
      var tag := FromLe16(img[at..at + 2]);
      var typ := FromLe16(img[at + 2..at + 4]);
      var count := FromLe32(img[at + 4..at + 8]);
      var field := img[at + 8..at + 12];
      var size := TypeSize(typ) * count;
      if size == 0 then None
      else if size <= 4 then Some(Record(tag, typ, count, field[..size]))
      else
        var offset := FromLe32(field);
        if offset + size > |img| then None
        else Some(Record(tag, typ, count, img[offset..offset + size]))
  }

  function ReadEntries(img: seq<byte>, at: nat, n: nat): Option<seq<Record>> {
    if n == 0 then Some([]) else
      var init :- ReadEntries(img, at, n - 1);
      var last :- ReadEntry(img, at + ENTRY_SIZE * (n - 1));
      Some(init + [last])
  }

  /** A directory's records and the offset of the next one. */
  function ReadDirectory(img: seq<byte>, at: nat): Option<(seq<Record>, nat)> {
    if at + COUNT_SIZE > |img| then None else
      var n := FromLe16(img[at..at + 2]);
      var records :- ReadEntries(img, at + COUNT_SIZE, n);
      var link := at + COUNT_SIZE + ENTRY_SIZE * n;
      if link + OFFSET_SIZE > |img| then None
      else Some((records, FromLe32(img[link..link + 4])))
  }

  function Find(records: seq<Record>, tag: nat): Option<Record> {
    if records == [] then None
    else if records[0].tag == tag then Some(records[0])
    else Find(records[1..], tag)
  }

  /** The value of a single LONG. */
  function LongValue(r: Record): Option<nat> {
    if r.typ == 4 && |r.data| == 4 then Some(FromLe32(r.data)) else None
  }

  /** The directory that a pointer tag of `records` leads to; None when the tag is absent. */
  function Follow(img: seq<byte>, records: seq<Record>, tag: nat): Option<Option<seq<Record>>> {
    match Find(records, tag)
    case None => Some(None)
    case Some(r) =>
      var at :- LongValue(r);
      var dir :- ReadDirectory(img, at);
      Some(Some(dir.0))
  }

  /** The thumbnail named by the JPEGInterchangeFormat tags of the 1st directory. */
  function ReadThumbnail(img: seq<byte>, records: seq<Record>): Option<seq<byte>> {
    var start :- Find(records, 0x0201);
    var length :- Find(records, 0x0202);
    var at :- LongValue(start);
    var n :- LongValue(length);
    if at + n > |img| then None else Some(img[at..at + n])
  }

  datatype Tiff = Tiff(
    ifd0: seq<Record>,
    exif: Option<seq<Record>>,
    gps: Option<seq<Record>>,
    ifd1: Option<(seq<Record>, seq<byte>)>)

  function ReadTiff(img: seq<byte>): Option<Tiff> {
    if |img| < 8 || img[..4] != [0x49, 0x49, 0x2A, 0x00] then None else
      var (ifd0, next) :- ReadDirectory(img, FromLe32(img[4..8]));
      var exif :- Follow(img, ifd0, 0x8769);
      var gps :- Follow(img, ifd0, 0x8825);
      if next == 0 then Some(Tiff(ifd0, exif, gps, None)) else
        var (ifd1, _) :- ReadDirectory(img, next);
        var thumbnail :- ReadThumbnail(img, ifd1);
        Some(Tiff(ifd0, exif, gps, Some((ifd1, thumbnail))))
  }

  /** What a reader makes of a stored field: it never looks out of line for four bytes or less. */
  function AsRead(f: Field, offset: nat): Record
  {
    Record(f.tag, f.typ, f.count,
           if ValueSize(f) > 4 then f.data
           else if f.outOfLine then Le32(offset)[..ValueSize(f)] else f.data[..ValueSize(f)])
  }

  /** What the writer meant by a field. */
  function AsMeant(f: Field): Record
  {
    Record(f.tag, f.typ, f.count, f.data[..ValueSize(f)])
  }

  ghost function AllAsRead(fs: seq<Field>, n: nat, base: nat): (records: seq<Record>)
    requires n <= |fs|
    ensures |records| == n
  {
    if n == 0 then []
    else AllAsRead(fs, n - 1, base) + [AsRead(fs[n - 1], base + |Payloads(fs, n - 1)|)]
  }

  lemma {:induction false} AllAsReadAt(fs: seq<Field>, n: nat, base: nat, i: nat)
    requires i < n <= |fs|
    ensures AllAsRead(fs, n, base)[i] == AsRead(fs[i], base + |Payloads(fs, i)|)
  {
    hide AsRead, Payloads;
    if i < n - 1 {
      AllAsReadAt(fs, n - 1, base, i);
    }
  }

  function AllAsMeant(fs: seq<Field>): (records: seq<Record>)
  {
    seq(|fs|, i requires 0 <= i < |fs| => AsMeant(fs[i]))
  }

  /** The four parts of a stored entry, as a reader slices them. */
  lemma SlotSlices(img: seq<byte>, at: nat, f: Field, offset: nat)
    requires Holds(img, at, Slot(f, offset))
    ensures at + ENTRY_SIZE <= |img|
    ensures img[at..at + 2] == Le16(f.tag)
    ensures img[at + 2..at + 4] == Le16(f.typ)
    ensures img[at + 4..at + 8] == Le32(f.count)
    ensures img[at + 8..at + 12] == if f.outOfLine then Le32(offset) else f.data
  {
    hide Le16, Le32;
    var tag, typ, count := Le16(f.tag), Le16(f.typ), Le32(f.count);
    var value := if f.outOfLine then Le32(offset) else f.data;
    var slot := tag + typ + count + value;
    assert slot == Slot(f, offset);
    HoldsFourParts(tag, typ, count, value);
    HoldsSlices(img, at, slot, 0, tag);
    HoldsSlices(img, at, slot, 2, typ);
    HoldsSlices(img, at, slot, 4, count);
    HoldsSlices(img, at, slot, 8, value);
  }

  /** An entry and its out-of-line value, wherever they are, read back as AsRead says. */
  lemma ReadEntryBack(img: seq<byte>, at: nat, f: Field, offset: nat)
    requires offset < 0x1_0000_0000
    requires Holds(img, at, Slot(f, offset))
    requires Holds(img, offset, Payload(f))
    ensures ReadEntry(img, at) == Some(AsRead(f, offset))
  {
    hide Holds, Slot, Le16, Le32, FromLe16, FromLe32, TypeSize;
    SlotSlices(img, at, f, offset);
    if f.outOfLine {
      HoldsSlice(img, offset, f.data);
    }
    Le16RoundTrip(f.tag);
    Le16RoundTrip(f.typ);
    Le32RoundTrip(f.count);
    Le32RoundTrip(offset);
  }

  lemma {:induction false} ReadEntriesBack(img: seq<byte>, at: nat, fs: seq<Field>, n: nat, base: nat)
    requires n <= |fs|
    requires base + |Payloads(fs, |fs|)| < 0x1_0000_0000
    requires Holds(img, at, Slots(fs, |fs|, base)) && Holds(img, base, Payloads(fs, |fs|))
    ensures ReadEntries(img, at, n) == Some(AllAsRead(fs, n, base))
  {
    hide Holds, Slots, Slot, Payload, Payloads, ReadEntry, AsRead;
    if n > 0 {
      ReadEntriesBack(img, at, fs, n - 1, base);
      var i := n - 1;
      EntryPosition(fs, |fs|, base, i);
      var offset := base + |Payloads(fs, i)|;
      HoldsWithin(img, at, Slots(fs, |fs|, base), ENTRY_SIZE * i, Slot(fs[i], offset));
      HoldsWithin(img, base, Payloads(fs, |fs|), |Payloads(fs, i)|, Payload(fs[i]));
      ReadEntryBack(img, at + ENTRY_SIZE * i, fs[i], offset);
    }
  }

  /** The reader recovers any directory from any file that holds its bytes at its offset. */
  lemma ReadDirectoryBack(img: seq<byte>, at: nat, fs: seq<Field>, next: nat)
    requires |fs| < 0x1_0000 && next < 0x1_0000_0000
    requires DirectoryEnd(fs, at) < 0x1_0000_0000
    requires Holds(img, at, Directory(fs, at, next))
    ensures ReadDirectory(img, at) == Some((AllAsRead(fs, |fs|, PayloadBase(at, |fs|)), next))
  {
    hide Holds, Slots, Payloads, Directory, ReadEntries, AllAsRead, Le16, Le32, FromLe16, FromLe32;
    var n, base, dir := |fs|, PayloadBase(at, |fs|), Directory(fs, at, next);
    DirectoryParts(fs, at, next);
    HoldsSlices(img, at, dir, 0, Le16(n));
    HoldsWithin(img, at, dir, COUNT_SIZE, Slots(fs, n, base));
    HoldsSlices(img, at, dir, COUNT_SIZE + ENTRY_SIZE * n, Le32(next));
    HoldsWithin(img, at, dir, base - at, Payloads(fs, n));
    Le16RoundTrip(n);
    Le32RoundTrip(next);
    ReadEntriesBack(img, at + COUNT_SIZE, fs, n, base);
  }

  lemma {:induction false} FindAt(records: seq<Record>, k: nat)
    requires k < |records|
    requires forall i :: 0 <= i < k ==> records[i].tag != records[k].tag
    ensures Find(records, records[k].tag) == Some(records[k])
  {
    if k > 0 {
      assert forall i :: 0 <= i < k - 1 ==> records[1..][i] == records[i + 1];
      FindAt(records[1..], k - 1);
    }
  }

  lemma {:induction false} FindAbsent(records: seq<Record>, tag: nat)
    requires forall i :: 0 <= i < |records| ==> records[i].tag != tag
    ensures Find(records, tag) == None
  {
    if records != [] {
      FindAbsent(records[1..], tag);
    }
  }

  /** The first field with a tag is the record found for it. */
  lemma FindField(fs: seq<Field>, base: nat, k: nat)
    requires k < |fs| && forall i :: 0 <= i < k ==> fs[i].tag != fs[k].tag
    ensures Find(AllAsRead(fs, |fs|, base), fs[k].tag) == Some(AsRead(fs[k], base + |Payloads(fs, k)|))
  {
    hide AllAsRead, Payloads, Find;
    var records := AllAsRead(fs, |fs|, base);
    forall i | 0 <= i <= k
      ensures records[i] == AsRead(fs[i], base + |Payloads(fs, i)|)
    {
      AllAsReadAt(fs, |fs|, base, i);
    }
    FindAt(records, k);
  }

  lemma FindNoField(fs: seq<Field>, base: nat, tag: nat)
    requires forall i :: 0 <= i < |fs| ==> fs[i].tag != tag
    ensures Find(AllAsRead(fs, |fs|, base), tag) == None
  {
    hide AllAsRead, Payloads, Find;
    var records := AllAsRead(fs, |fs|, base);
    forall i | 0 <= i < |fs|
      ensures records[i].tag != tag
    {
      AllAsReadAt(fs, |fs|, base, i);
    }
    FindAbsent(records, tag);
  }

  /** Following a pointer field leads to the directory stored at the offset it holds. */
  lemma FollowField(img: seq<byte>, fs: seq<Field>, base: nat, k: nat, target: nat, dir: seq<Field>, next: nat)
    requires k < |fs| && forall i :: 0 <= i < k ==> fs[i].tag != fs[k].tag
    requires fs[k].typ == 4 && fs[k].count == 1 && !fs[k].outOfLine && fs[k].data == Le32(target)
    requires target < 0x1_0000_0000 && next < 0x1_0000_0000
    requires |dir| < 0x1_0000 && DirectoryEnd(dir, target) < 0x1_0000_0000
    requires Holds(img, target, Directory(dir, target, next))
    ensures Follow(img, AllAsRead(fs, |fs|, base), fs[k].tag)
         == Some(Some(AllAsRead(dir, |dir|, PayloadBase(target, |dir|))))
  {
    hide AllAsRead, Payloads, Find, ReadDirectory, Holds, Directory, DirectoryEnd, Le32, FromLe32;
    FindField(fs, base, k);
    Le32RoundTrip(target);
    ReadDirectoryBack(img, target, dir, next);
    assert Le32(target)[..4] == Le32(target);
  }
}
