/** The parts of Node.js `Buffer` behaviour that the extractor relies on:
    bounds-checked little-endian reads that throw, `slice` with clamped and
    end-relative offsets, `indexOf` for a byte pattern, and plain indexing,
    which yields `undefined` past the end. */
module Buffers {

  /** One byte of a Buffer (or of a Uint8Array). */
  type uint8 = x: int | 0 <= x < 256

  const TWO_32: int := 0x1_0000_0000

  datatype Option<T> = None | Some(value: T)

  /** The RangeError that a bounds-checked read throws,
      carrying the offset it was given. */
  datatype Error = OutOfRange(offset: int)

  datatype Result<T> = Ok(value: T) | Err(error: Error)

  /** The unsigned value of four bytes, least significant first. */
  function LittleEndian32(b0: uint8, b1: uint8, b2: uint8, b3: uint8): (v: nat)
    ensures v < TWO_32
  {
    b0 + 256 * b1 + 65536 * b2 + 16777216 * b3
  }

  /** `buf.readUInt32LE(offset)`: throws unless all four bytes
      `offset .. offset+3` lie inside the buffer. */
  function ReadUInt32LE(buf: seq<uint8>, offset: int): (r: Result<nat>)
    ensures r.Ok? <==> 0 <= offset && offset + 4 <= |buf|
    ensures r.Err? ==> r.error == OutOfRange(offset)
    ensures r.Ok? ==> r.value < TWO_32
  {
    if 0 <= offset && offset + 4 <= |buf| then
      Ok(LittleEndian32(buf[offset], buf[offset + 1], buf[offset + 2], buf[offset + 3]))
    else
      Err(OutOfRange(offset))
  }

  /** The four bytes `buf.writeUInt32LE(v)` stores: the inverse of the read. */
  function EncodeUInt32LE(v: nat): (s: seq<uint8>)
    requires v < TWO_32
    ensures |s| == 4
  {
    var a := v / 256;
    var b := a / 256;
    [v % 256, a % 256, b % 256, b / 256]
  }

  lemma DivModByte(x: int, y: int)
    requires 0 <= x < 256
    ensures (x + 256 * y) % 256 == x
    ensures (x + 256 * y) / 256 == y
  {
  }

  /** Reading back what was encoded gives the value, wherever it sits. */
  lemma {:induction false} ReadEncoded(prefix: seq<uint8>, v: nat, suffix: seq<uint8>)
    requires v < TWO_32
    ensures ReadUInt32LE(prefix + EncodeUInt32LE(v) + suffix, |prefix|) == Ok(v)
  {
    var s := EncodeUInt32LE(v);
    var buf := prefix + s + suffix;
    assert buf[|prefix|..|prefix| + 4] == s;
    var a := v / 256;
    var b := a / 256;
    assert v == v % 256 + 256 * a;
    assert a == a % 256 + 256 * b;
    assert b == b % 256 + 256 * (b / 256);
    calc {
      LittleEndian32(s[0], s[1], s[2], s[3]);
      v % 256 + 256 * (a % 256 + 256 * (b % 256 + 256 * (b / 256)));
      v;
    }
  }

  /** Encoding what was read gives back the four bytes. */
  lemma {:induction false} EncodeRead(buf: seq<uint8>, offset: int)
    requires 0 <= offset && offset + 4 <= |buf|
    ensures ReadUInt32LE(buf, offset).Ok?
    ensures EncodeUInt32LE(ReadUInt32LE(buf, offset).value) == buf[offset..offset + 4]
  {
    var b0: int, b1: int, b2: int, b3: int := buf[offset], buf[offset + 1], buf[offset + 2], buf[offset + 3];
    var v := LittleEndian32(b0, b1, b2, b3);
    var mid: int := b2 + 256 * b3;
    var hi: int := b1 + 256 * mid;
    assert v == b0 + 256 * hi;
    DivModByte(b0, hi);
    assert v % 256 == b0 && v / 256 == hi;
    DivModByte(b1, mid);
    assert hi % 256 == b1 && hi / 256 == mid;
    DivModByte(b2, b3);
    assert mid % 256 == b2 && mid / 256 == b3;
    assert EncodeUInt32LE(v) == [b0, b1, b2, b3];
  }

  function Min(a: int, b: int): int { if a < b then a else b }
  function Max(a: int, b: int): int { if a < b then b else a }

  /** `w` holds the bytes of `buf` at positions `[start, end)` that exist:
      the window clamped to the end of the buffer, empty when `start >= end`. */
  ghost predicate IsWindow(buf: seq<uint8>, start: nat, end: nat, w: seq<uint8>)
  {
    && |w| == Max(0, Min(end, |buf|) - start)
    && forall k :: 0 <= k < |w| ==> start + k < |buf| && w[k] == buf[start + k]
  }

  /** Node's treatment of a slice bound: negative counts from the end, and
      the result is clamped to `[0, length]`. */
  function AdjustOffset(offset: int, length: nat): (r: nat)
    ensures r <= length
  {
    if offset < 0 then (if offset + length > 0 then offset + length else 0)
    else if offset < length then offset
    else length
  }

  /** `buf.slice(start, end)`. */
  function Slice(buf: seq<uint8>, start: int, end: int): (r: seq<uint8>)
    ensures 0 <= start && 0 <= end ==> IsWindow(buf, start, end, r)
    ensures 0 <= start <= end <= |buf| ==> r == buf[start..end]
  {
    var s := AdjustOffset(start, |buf|);
    var e := AdjustOffset(end, |buf|);
    if s < e then buf[s..e] else []
  }

  /** `buf[k]` as JavaScript reads it: `undefined` (None) outside the buffer. */
  function Get(buf: seq<uint8>, k: int): (r: Option<uint8>)
    ensures r.Some? <==> 0 <= k < |buf|
    ensures r.Some? ==> r.value == buf[k]
  {
    if 0 <= k < |buf| then Some(buf[k]) else None
  }

  /** The byte a Uint8Array stores when assigned a value read by `Get`:
      `undefined` converts to NaN and is stored as 0. */
  function Stored(v: Option<uint8>): uint8
  {
    match v
    case Some(b) => b
    case None => 0
  }

  ghost predicate OccursAt(buf: seq<uint8>, pat: seq<uint8>, p: int)
  {
    0 <= p && p + |pat| <= |buf| && buf[p..p + |pat|] == pat
  }

  /** `p` is the first position at which `pat` occurs in `buf`. */
  ghost predicate IsFirstOccurrence(buf: seq<uint8>, pat: seq<uint8>, p: int)
  {
    OccursAt(buf, pat, p) && forall q :: 0 <= q < p ==> !OccursAt(buf, pat, q)
  }

  function IndexOfFrom(buf: seq<uint8>, pat: seq<uint8>, from: nat): (r: int)
    requires from <= |buf|
    decreases |buf| - from
    ensures r == -1 || from <= r
    ensures r != -1 ==> OccursAt(buf, pat, r)
    ensures forall q :: from <= q && (r == -1 || q < r) ==> !OccursAt(buf, pat, q)
  {
    if from + |pat| > |buf| then -1
    else if buf[from..from + |pat|] == pat then from
    else IndexOfFrom(buf, pat, from + 1)
  }

  /** `buf.indexOf(pat)`: the first position of `pat`, or -1 when it does
      not occur. An empty pattern is found at 0. */
  function IndexOf(buf: seq<uint8>, pat: seq<uint8>): (r: int)
    ensures r == -1 <==> forall q :: !OccursAt(buf, pat, q)
    ensures r != -1 ==> IsFirstOccurrence(buf, pat, r)
  {
    IndexOfFrom(buf, pat, 0)
  }
}
