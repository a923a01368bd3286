/**
 The four writeExifIfd overloads: each stores one directory entry at a cursor, and the
 out-of-line ones also store the value at a second cursor. The ghost plan says which
 directory is being filled; Progress ties both cursors and the bytes written to it.
 */
module ExifWriter {
  import opened Bytes
  import opened TiffDirectory
  import opened ExifFormat

  /** The directory with fields fs is being written at offset `at` of the TIFF structure at buffer index `start`. */
  datatype Plan = Plan(start: nat, at: nat, fs: seq<Field>, before: seq<byte>)

  /**
   The first k entries and their values are in place, the entry cursor is at `cur` and the data
   cursor at offset `off`; the bytes ahead of the directory are those of the plan.
   */
  ghost predicate Progress(bytes: seq<byte>, p: Plan, k: nat, cur: nat, off: nat) {
    && k <= |p.fs| < 0x1_0000
    && |p.before| == p.start + p.at
    && cur == p.start + p.at + COUNT_SIZE + ENTRY_SIZE * k
    && off == PayloadBase(p.at, |p.fs|) + |Payloads(p.fs, k)|
    && p.start + off <= |bytes|
    && Holds(bytes, 0, p.before)
    && Holds(bytes, p.start + p.at, Le16(|p.fs|) + Slots(p.fs, k, PayloadBase(p.at, |p.fs|)))
    && Holds(bytes, p.start + PayloadBase(p.at, |p.fs|), Payloads(p.fs, k))
  }

  /** Storing entry k advances the plan; its cursor stays clear of the values already stored. */
  lemma AdvanceInline(b0: seq<byte>, b1: seq<byte>, p: Plan, k: nat, cur: nat, off: nat)
    requires Progress(b0, p, k, cur, off) && k < |p.fs| && Payload(p.fs[k]) == []
    requires Holds(b1, cur, Slot(p.fs[k], off)) && ChangedOnly(b0, b1, cur, cur + ENTRY_SIZE)
    ensures Progress(b1, p, k + 1, cur + ENTRY_SIZE, off)
  {
    hide Holds, ChangedOnly, Le16, Slot, Payload;
    var base := PayloadBase(p.at, |p.fs|);
    var done := Le16(|p.fs|) + Slots(p.fs, k, base);
    KeepLength(b0, b1, cur, cur + ENTRY_SIZE);
    HoldsFrame(b0, b1, cur, cur + ENTRY_SIZE, 0, p.before);
    HoldsFrame(b0, b1, cur, cur + ENTRY_SIZE, p.start + p.at, done);
    HoldsFrame(b0, b1, cur, cur + ENTRY_SIZE, p.start + base, Payloads(p.fs, k));
    HoldsJoin(b1, p.start + p.at, done, Slot(p.fs[k], off));
    assert done + Slot(p.fs[k], off) == Le16(|p.fs|) + Slots(p.fs, k + 1, base);
    assert Payloads(p.fs, k + 1) == Payloads(p.fs, k);
  }

  lemma KeepLength(b0: seq<byte>, b1: seq<byte>, from: nat, to: nat)
    requires ChangedOnly(b0, b1, from, to)
    ensures |b1| == |b0|
  {
  }

  lemma AdvanceOutOfLine(b0: seq<byte>, b1: seq<byte>, b2: seq<byte>, p: Plan, k: nat, cur: nat, off: nat)
    requires Progress(b0, p, k, cur, off) && k < |p.fs|
    requires Holds(b1, cur, Slot(p.fs[k], off)) && ChangedOnly(b0, b1, cur, cur + ENTRY_SIZE)
    requires var value := Payload(p.fs[k]);
             Holds(b2, p.start + off, value) && ChangedOnly(b1, b2, p.start + off, p.start + off + |value|)
    ensures Progress(b2, p, k + 1, cur + ENTRY_SIZE, off + |Payload(p.fs[k])|)
  {
    hide Holds, ChangedOnly, Le16, Slot, Payload;
    var base, value := PayloadBase(p.at, |p.fs|), Payload(p.fs[k]);
    var done, from, to := Le16(|p.fs|) + Slots(p.fs, k, base), p.start + off, p.start + off + |value|;
    KeepLength(b0, b1, cur, cur + ENTRY_SIZE);
    KeepLength(b1, b2, from, to);
    HoldsFrame(b0, b1, cur, cur + ENTRY_SIZE, 0, p.before);
    HoldsFrame(b0, b1, cur, cur + ENTRY_SIZE, p.start + p.at, done);
    HoldsFrame(b0, b1, cur, cur + ENTRY_SIZE, p.start + base, Payloads(p.fs, k));
    HoldsJoin(b1, p.start + p.at, done, Slot(p.fs[k], off));
    assert done + Slot(p.fs[k], off) == Le16(|p.fs|) + Slots(p.fs, k + 1, base);
    HoldsFrame(b1, b2, from, to, 0, p.before);
    HoldsFrame(b1, b2, from, to, p.start + p.at, Le16(|p.fs|) + Slots(p.fs, k + 1, base));
    HoldsFrame(b1, b2, from, to, p.start + base, Payloads(p.fs, k));
    HoldsJoin(b2, p.start + base, Payloads(p.fs, k), value);
    HoldsWithinLength(b2, from, value);
  }

  lemma HoldsWithinLength(b: seq<byte>, at: nat, bytes: seq<byte>)
    requires Holds(b, at, bytes)
    ensures at + |bytes| <= |b|
  {
  }

  /** The entry itself, common to all the overloads. */
  method WriteEntry(buf: array<byte>, cur: nat, tag: nat, typ: nat, count: nat, field: seq<byte>) returns (next: nat)
    requires cur + ENTRY_SIZE <= buf.Length && |field| == 4
    modifies buf
    ensures next == cur + ENTRY_SIZE
    ensures Holds(buf[..], cur, Le16(tag) + Le16(typ) + Le32(count) + field)
    ensures ChangedOnly(old(buf[..]), buf[..], cur, next)
  {
    MemCpy(buf, cur, Le16(tag));
    MemCpy(buf, cur + 2, Le16(typ));
    MemCpy(buf, cur + 4, Le32(count));
    MemCpy(buf, cur + 8, field);
    next := cur + 12;
  }

  /** writeExifIfd(pCur, tag, type, count, unsigned int value) */
  method WriteValue(buf: array<byte>, cur: nat, tag: nat, typ: nat, count: nat, value: nat,
                    ghost p: Plan, ghost k: nat, ghost off: nat)
    returns (next: nat)
    requires k < |p.fs| && p.fs[k] == Entry(tag, typ, count, Le32(value), false)
    requires Progress(buf[..], p, k, cur, off)
    modifies buf
    ensures next == cur + ENTRY_SIZE
    ensures Progress(buf[..], p, k + 1, next, off)
    ensures ChangedOnly(old(buf[..]), buf[..], cur, next)
  {
    next := WriteEntry(buf, cur, tag, typ, count, Le32(value));
    AdvanceInline(old(buf[..]), buf[..], p, k, cur, off);
  }

  /** writeExifIfd(pCur, tag, type, count, unsigned char *pValue): nothing happens above four bytes. */
  method WriteInline(buf: array<byte>, cur: nat, tag: nat, typ: nat, value: seq<byte>,
                     ghost p: Plan, ghost k: nat, ghost off: nat)
    returns (next: nat)
    requires |value| <= 4 ==>
               k < |p.fs| && p.fs[k] == Entry(tag, typ, |value|, value + seq(4 - |value|, _ => 0), false)
    requires Progress(buf[..], p, k, cur, off)
    modifies buf
    ensures |value| > 4 ==> next == cur && buf[..] == old(buf[..])
    ensures |value| <= 4 ==> next == cur + ENTRY_SIZE && Progress(buf[..], p, k + 1, next, off)
    ensures ChangedOnly(old(buf[..]), buf[..], cur, next)
  {
    if |value| > 4 {
      return cur;
    }
    next := WriteEntry(buf, cur, tag, typ, |value|, value + seq(4 - |value|, _ => 0));
    AdvanceInline(old(buf[..]), buf[..], p, k, cur, off);
  }

  /** writeExifIfd(pCur, tag, type, count, unsigned char *pValue, offset, start) */
  method WriteBytes(buf: array<byte>, cur: nat, tag: nat, typ: nat, value: seq<byte>, off: nat, start: nat,
                    ghost p: Plan, ghost k: nat)
    returns (next: nat, off': nat)
    requires start == p.start && k < |p.fs| && p.fs[k] == Entry(tag, typ, |value|, value, true)
    requires Progress(buf[..], p, k, cur, off) && start + off + |value| <= buf.Length
    modifies buf
    ensures next == cur + ENTRY_SIZE && off' == off + |value|
    ensures Progress(buf[..], p, k + 1, next, off')
    ensures ChangedOnly(old(buf[..]), buf[..], cur, start + off')
  {
    next := WriteEntry(buf, cur, tag, typ, |value|, Le32(off));
    ghost var entry := buf[..];
    MemCpy(buf, start + off, value);
    off' := off + |value|;
    AdvanceOutOfLine(old(buf[..]), entry, buf[..], p, k, cur, off);
  }

  /** The entry to be written ends before the data cursor. */
  lemma CursorInFront(bytes: seq<byte>, p: Plan, k: nat, cur: nat, off: nat)
    requires Progress(bytes, p, k, cur, off) && k < |p.fs|
    ensures cur + ENTRY_SIZE <= p.start + off <= |bytes|
  {
  }

  lemma ChangedTwice(b0: seq<byte>, b1: seq<byte>, b2: seq<byte>, cur: nat, next: nat, from: nat, to: nat)
    requires ChangedOnly(b0, b1, cur, next) && ChangedOnly(b1, b2, from, to) && cur <= next <= from <= to
    ensures ChangedOnly(b0, b2, cur, to)
  {
  }

  /** writeExifIfd(pCur, tag, type, count, rational_t *pValue, offset, start) */
  method WriteRationals(buf: array<byte>, cur: nat, tag: nat, typ: nat, value: seq<Rational>, off: nat, start: nat,
                        ghost p: Plan, ghost k: nat)
    returns (next: nat, off': nat)
    requires start == p.start && k < |p.fs| && p.fs[k] == Entry(tag, typ, |value|, RationalsBytes(value), true)
    requires Progress(buf[..], p, k, cur, off) && start + off + 8 * |value| <= buf.Length
    modifies buf
    ensures next == cur + ENTRY_SIZE && off' == off + 8 * |value|
    ensures Progress(buf[..], p, k + 1, next, off')
    ensures ChangedOnly(old(buf[..]), buf[..], cur, start + off')
  {
    hide Progress, Holds, ChangedOnly, RationalsBytes, Le16, Le32;
    CursorInFront(buf[..], p, k, cur, off);
    next := WriteEntry(buf, cur, tag, typ, |value|, Le32(off));
    ghost var entry := buf[..];
    MemCpy(buf, start + off, RationalsBytes(value));
    off' := off + 8 * |value|;
    AdvanceOutOfLine(old(buf[..]), entry, buf[..], p, k, cur, off);
    ChangedTwice(old(buf[..]), entry, buf[..], cur, next, start + off, start + off');
  }

  /** The entry count that opens a directory; the data cursor starts past the entries and the link. */
  method OpenDirectory(buf: array<byte>, cur: nat, count: nat, ghost p: Plan) returns (next: nat)
    requires count == |p.fs| < 0x1_0000 && |p.before| == p.start + p.at == cur
    requires p.start + PayloadBase(p.at, count) <= buf.Length && Holds(buf[..], 0, p.before)
    modifies buf
    ensures next == cur + COUNT_SIZE
    ensures Progress(buf[..], p, 0, next, PayloadBase(p.at, count))
  {
    MemCpy(buf, cur, Le16(count));
    next := cur + COUNT_SIZE;
    HoldsFrame(old(buf[..]), buf[..], cur, next, 0, p.before);
    assert Le16(count) + Slots(p.fs, 0, PayloadBase(p.at, count)) == Le16(count);
  }

  lemma DirectoryDone(bytes: seq<byte>, p: Plan, cur: nat, off: nat, link: nat)
    requires Progress(bytes, p, |p.fs|, cur, off) && Holds(bytes, cur, Le32(link))
    ensures Holds(bytes, p.start + p.at, Directory(p.fs, p.at, link))
  {
    hide Holds, Le16, Le32, Slots, Payloads;
    var base := PayloadBase(p.at, |p.fs|);
    HoldsJoin(bytes, p.start + p.at, Le16(|p.fs|) + Slots(p.fs, |p.fs|, base), Le32(link));
    HoldsJoin(bytes, p.start + p.at, Le16(|p.fs|) + Slots(p.fs, |p.fs|, base) + Le32(link), Payloads(p.fs, |p.fs|));
  }

  /** The link to the next directory, after the last entry. */
  method WriteLink(buf: array<byte>, cur: nat, link: nat, ghost p: Plan, ghost off: nat)
    requires Progress(buf[..], p, |p.fs|, cur, off)
    modifies buf
    ensures Progress(buf[..], p, |p.fs|, cur, off)
    ensures Holds(buf[..], p.start + p.at, Directory(p.fs, p.at, link))
    ensures ChangedOnly(old(buf[..]), buf[..], cur, cur + OFFSET_SIZE)
  {
    MemCpy(buf, cur, Le32(link));
    ProgressPastLink(old(buf[..]), buf[..], p, |p.fs|, cur, off);
    DirectoryDone(buf[..], p, cur, off, link);
  }

  lemma ProgressPastLink(b0: seq<byte>, b1: seq<byte>, p: Plan, k: nat, cur: nat, off: nat)
    requires Progress(b0, p, k, cur, off) && k == |p.fs| && ChangedOnly(b0, b1, cur, cur + OFFSET_SIZE)
    ensures Progress(b1, p, k, cur, off)
  {
    hide Holds, ChangedOnly, Le16, Slots, Payloads;
    var base := PayloadBase(p.at, |p.fs|);
    KeepLength(b0, b1, cur, cur + OFFSET_SIZE);
    HoldsFrame(b0, b1, cur, cur + OFFSET_SIZE, 0, p.before);
    HoldsFrame(b0, b1, cur, cur + OFFSET_SIZE, p.start + p.at, Le16(|p.fs|) + Slots(p.fs, k, base));
    HoldsFrame(b0, b1, cur, cur + OFFSET_SIZE, p.start + base, Payloads(p.fs, k));
  }
}
