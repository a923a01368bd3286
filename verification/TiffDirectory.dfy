/**
 An image file directory as section 2 of TIFF 6.0 lays it out, the way the
 camera's Exif writer stores one: the entry count, the twelve-byte entries, the
 offset of the next directory, then the values that do not sit in an entry.
 All offsets count from the start of the TIFF header.
 */
module TiffDirectory {
  import opened Bytes

  const COUNT_SIZE: nat := 2
  const ENTRY_SIZE: nat := 12
  const OFFSET_SIZE: nat := 4

  /** One entry. `data` is the four-byte value field, or the bytes stored out of line. */
  datatype Entry = Entry(tag: nat, typ: nat, count: nat, data: seq<byte>, outOfLine: bool)

  /** An entry whose numbers fit their places and whose data has the size its type and count give. */
  type Field = f: Entry | ValidField(f) witness Entry(0, 1, 1, [0, 0, 0, 0], false)

  /** Bytes per value of a field type; 0 for a type that the writer does not use. */
  function TypeSize(typ: nat): nat {
    match typ
    case 1 => 1
    case 2 => 1
    case 7 => 1
    case 3 => 2
    case 4 => 4
    case 9 => 4
    case 5 => 8
    case 10 => 8
    case _ => 0
  }

  function ValueSize(f: Entry): nat {
    TypeSize(f.typ) * f.count
  }

  predicate ValidField(f: Entry) {
    && f.tag < 0x1_0000
    && f.typ < 0x1_0000
    && 0 < ValueSize(f)
    && f.count < 0x1_0000_0000
    && if f.outOfLine then |f.data| == ValueSize(f) else |f.data| == 4 && ValueSize(f) <= 4
  }

  /** Section 2 of TIFF 6.0: a value of at most four bytes belongs in the entry itself. */
  predicate StoredByTheRule(f: Entry) {
    f.outOfLine ==> ValueSize(f) > 4
  }

  function Payload(f: Entry): seq<byte> {
    if f.outOfLine then f.data else []
  }

  /** The twelve bytes of an entry whose out-of-line value, if any, is at `offset`. */
  function Slot(f: Field, offset: nat): (b: seq<byte>)
    ensures |b| == ENTRY_SIZE
  {
    Le16(f.tag) + Le16(f.typ) + Le32(f.count) + if f.outOfLine then Le32(offset) else f.data
  }

  /** The out-of-line values of the first k fields, in order. */
  ghost function Payloads(fs: seq<Field>, k: nat): seq<byte>
    requires k <= |fs|
  {
    if k == 0 then [] else Payloads(fs, k - 1) + Payload(fs[k - 1])
  }

  lemma FourPayloads(fs: seq<Field>, k: nat)
    requires k + 4 <= |fs|
    ensures |Payloads(fs, k + 4)| == |Payloads(fs, k)| + |Payload(fs[k])| + |Payload(fs[k + 1])|
                                     + |Payload(fs[k + 2])| + |Payload(fs[k + 3])|
  {
    assert |Payloads(fs, k + 2)| == |Payloads(fs, k)| + |Payload(fs[k])| + |Payload(fs[k + 1])|;
  }

  /** The entries of the first k fields when out-of-line values start at `base`. */
  ghost function Slots(fs: seq<Field>, k: nat, base: nat): (b: seq<byte>)
    requires k <= |fs|
    ensures |b| == ENTRY_SIZE * k
  {
    if k == 0 then []
    else Slots(fs, k - 1, base) + Slot(fs[k - 1], base + |Payloads(fs, k - 1)|)
  }

  /** Where out-of-line values start in an n-entry directory at offset `at`. */
  function PayloadBase(at: nat, n: nat): nat {
    at + COUNT_SIZE + ENTRY_SIZE * n + OFFSET_SIZE
  }

  ghost function DirectoryEnd(fs: seq<Field>, at: nat): nat {
    PayloadBase(at, |fs|) + |Payloads(fs, |fs|)|
  }

  /** A whole directory placed at offset `at`. */
  ghost function Directory(fs: seq<Field>, at: nat, next: nat): (b: seq<byte>)
    ensures at + |b| == DirectoryEnd(fs, at)
  {
    Le16(|fs|) + Slots(fs, |fs|, PayloadBase(at, |fs|)) + Le32(next) + Payloads(fs, |fs|)
  }

  /** Entry i of a directory and its out-of-line value, inside the directory's bytes. */
  lemma {:induction false} EntryPosition(fs: seq<Field>, k: nat, base: nat, i: nat)
    requires i < k <= |fs|
    ensures Holds(Slots(fs, k, base), ENTRY_SIZE * i, Slot(fs[i], base + |Payloads(fs, i)|))
    ensures Holds(Payloads(fs, k), |Payloads(fs, i)|, Payload(fs[i]))
    ensures |Payloads(fs, i)| + |Payload(fs[i])| <= |Payloads(fs, k)|
  {
    hide Holds, Slot, Payload;
    HoldsParts(Slots(fs, k - 1, base), Slot(fs[k - 1], base + |Payloads(fs, k - 1)|));
    HoldsParts(Payloads(fs, k - 1), Payload(fs[k - 1]));
    if i < k - 1 {
      EntryPosition(fs, k - 1, base, i);
      HoldsWithin(Slots(fs, k, base), 0, Slots(fs, k - 1, base), ENTRY_SIZE * i,
                  Slot(fs[i], base + |Payloads(fs, i)|));
      HoldsWithin(Payloads(fs, k), 0, Payloads(fs, k - 1), |Payloads(fs, i)|, Payload(fs[i]));
    }
  }

  /** The four parts of a directory, inside the directory's bytes. */
  lemma DirectoryParts(fs: seq<Field>, at: nat, next: nat)
    ensures var dir, n, base := Directory(fs, at, next), |fs|, PayloadBase(at, |fs|);
            && Holds(dir, 0, Le16(n))
            && Holds(dir, COUNT_SIZE, Slots(fs, n, base))
            && Holds(dir, COUNT_SIZE + ENTRY_SIZE * n, Le32(next))
            && Holds(dir, base - at, Payloads(fs, n))
  {
    hide Holds, Slots, Payloads, Le16, Le32;
    var count, slots, link, data := Le16(|fs|), Slots(fs, |fs|, PayloadBase(at, |fs|)), Le32(next), Payloads(fs, |fs|);
    assert Directory(fs, at, next) == count + slots + link + data;
    hide Directory;
    HoldsFourParts(count, slots, link, data);
  }
}
