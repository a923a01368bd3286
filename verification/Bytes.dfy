/** Bytes in memory: little-endian integers, C strings and memcpy. */
module Bytes {
  type byte = x: int | 0 <= x < 256

  /** The low two bytes of v, least significant first: what memcpy(p, &v, 2) stores. */
  function Le16(v: nat): (b: seq<byte>)
    ensures |b| == 2
  {
    [v % 256, v / 256 % 256]
  }

  /** The low four bytes of v, least significant first. */
  function Le32(v: nat): (b: seq<byte>)
    ensures |b| == 4
  {
    [v % 256, v / 0x100 % 256, v / 0x1_0000 % 256, v / 0x100_0000 % 256]
  }

  function FromLe16(b: seq<byte>): nat
    requires |b| == 2
  {
    b[0] as int + 256 * (b[1] as int)
  }

  function FromLe32(b: seq<byte>): nat
    requires |b| == 4
  {
    b[0] as int + 0x100 * (b[1] as int) + 0x1_0000 * (b[2] as int) + 0x100_0000 * (b[3] as int)
  }

  lemma Le16RoundTrip(v: nat)
    requires v < 0x1_0000
    ensures FromLe16(Le16(v)) == v
  {
  }

  lemma Le32RoundTrip(v: nat)
    requires v < 0x1_0000_0000
    ensures FromLe32(Le32(v)) == v
  {
    var a, b, c := v / 0x100, v / 0x1_0000, v / 0x100_0000;
    assert b == a / 256 && c == b / 256;
    assert v == 256 * a + v % 256;
    assert a == 256 * b + a % 256;
    assert b == 256 * c + b % 256;
  }

  /** Number of bytes before the first NUL, or all of them when there is none. */
  function StrLen(s: seq<byte>): (n: nat)
    ensures n <= |s|
    ensures forall i :: 0 <= i < n ==> s[i] != 0
    ensures n < |s| ==> s[n] == 0
  {
    if s == [] || s[0] == 0 then 0 else 1 + StrLen(s[1..])
  }

  /** img has the given bytes at offset `at`. */
  ghost predicate Holds(img: seq<byte>, at: nat, bytes: seq<byte>) {
    at + |bytes| <= |img| && forall i :: 0 <= i < |bytes| ==> img[at + i] == bytes[i]
  }

  lemma HoldsSlice(img: seq<byte>, at: nat, bytes: seq<byte>)
    requires Holds(img, at, bytes)
    ensures at + |bytes| <= |img| && img[at..at + |bytes|] == bytes
  {
  }

  lemma HoldsWithin(img: seq<byte>, a: nat, mid: seq<byte>, b: nat, bytes: seq<byte>)
    requires Holds(img, a, mid) && Holds(mid, b, bytes)
    ensures Holds(img, a + b, bytes)
  {
    forall i | 0 <= i < |bytes|
      ensures img[a + b + i] == bytes[i]
    {
      assert img[a + (b + i)] == mid[b + i];
    }
  }

  lemma HoldsParts(x: seq<byte>, y: seq<byte>)
    ensures Holds(x + y, 0, x) && Holds(x + y, |x|, y)
  {
  }

  lemma HoldsJoin(img: seq<byte>, at: nat, x: seq<byte>, y: seq<byte>)
    requires Holds(img, at, x) && Holds(img, at + |x|, y)
    ensures Holds(img, at, x + y)
  {
    forall i | 0 <= i < |x + y|
      ensures img[at + i] == (x + y)[i]
    {
      if i >= |x| {
        assert img[at + |x| + (i - |x|)] == y[i - |x|];
      }
    }
  }

  /** Nothing outside from..to differs. */
  ghost predicate ChangedOnly(before: seq<byte>, after: seq<byte>, from: nat, to: nat) {
    && |after| == |before|
    && forall i :: 0 <= i < |before| && !(from <= i < to) ==> after[i] == before[i]
  }

  lemma HoldsFrame(before: seq<byte>, after: seq<byte>, from: nat, to: nat, at: nat, bytes: seq<byte>)
    requires ChangedOnly(before, after, from, to) && Holds(before, at, bytes)
    requires at + |bytes| <= from || to <= at
    ensures Holds(after, at, bytes)
  {
  }

  lemma HoldsThreeParts(a: seq<byte>, b: seq<byte>, c: seq<byte>)
    ensures var s := a + b + c; Holds(s, 0, a) && Holds(s, |a|, b) && Holds(s, |a| + |b|, c)
  {
    hide Holds;
    var ab := a + b;
    HoldsParts(a, b);
    HoldsParts(ab, c);
    HoldsWithin(ab + c, 0, ab, 0, a);
    HoldsWithin(ab + c, 0, ab, |a|, b);
  }

  lemma HoldsFourParts(a: seq<byte>, b: seq<byte>, c: seq<byte>, d: seq<byte>)
    ensures var s := a + b + c + d;
            && Holds(s, 0, a)
            && Holds(s, |a|, b)
            && Holds(s, |a| + |b|, c)
            && Holds(s, |a| + |b| + |c|, d)
  {
    hide Holds;
    var ab := a + b;
    var abc := ab + c;
    HoldsThreeParts(a, b, c);
    HoldsParts(abc, d);
    HoldsWithin(abc + d, 0, abc, 0, a);
    HoldsWithin(abc + d, 0, abc, |a|, b);
    HoldsWithin(abc + d, 0, abc, |a| + |b|, c);
  }

  lemma HoldsSlices(img: seq<byte>, at: nat, whole: seq<byte>, from: nat, part: seq<byte>)
    requires Holds(img, at, whole) && Holds(whole, from, part)
    ensures at + from + |part| <= |img| && img[at + from..at + from + |part|] == part
  {
    HoldsWithin(img, at, whole, from, part);
    HoldsSlice(img, at + from, part);
  }

  /** memcpy: the named range receives the bytes and nothing else changes. */
  method MemCpy(buf: array<byte>, at: nat, bytes: seq<byte>)
    requires at + |bytes| <= buf.Length
    modifies buf
    ensures Holds(buf[..], at, bytes)
    ensures ChangedOnly(old(buf[..]), buf[..], at, at + |bytes|)
  {
    forall i | 0 <= i < |bytes| {
      buf[at + i] := bytes[i];
    }
  }
}
