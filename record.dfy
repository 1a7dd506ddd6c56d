/** One record of the data file (`parseData`): its stored length, the
    optional 14-byte header carrying the dimensions, the payload of 3-byte
    pixel groups, and the RGBA buffer the payload is unpacked into. */
module Record {
  import opened Buffers

  /** Bytes before a record's header: 4 unused, the 4-byte stored length,
      4 more unused. */
  const DATA_OFFSET: nat := 4 + 4 + 4

  function HeaderLength(hasHeader: bool): (n: nat)
    ensures n == if hasHeader then 14 else 0
  {
    if hasHeader then 14 else 0
  }

  /** The stored length of a record and the two slices taken from it. */
  datatype Windows = Windows(storedLength: nat, header: seq<uint8>, payload: seq<uint8>)

  /** Reads the stored length at `i + 4` (which throws when out of range)
      and slices the header `[i+12, i+12+headerLength)` and the payload
      `[i+12+headerLength, i+12+storedLength)`, both clamped to the data. */
  function RecordWindows(data: seq<uint8>, i: nat, hasHeader: bool): (r: Result<Windows>)
    ensures r.Ok? <==> i + 8 <= |data|
    ensures r.Err? ==> r.error == OutOfRange(i + 4)
    ensures r.Ok? ==> r.value.storedLength == LittleEndian32(data[i + 4], data[i + 5], data[i + 6], data[i + 7])
  {
    var headerLength := HeaderLength(hasHeader);
    match ReadUInt32LE(data, i + 4)
    case Err(e) => Err(e)
    case Ok(stored) =>
      var itemLength := stored - headerLength;
      var itemData := Slice(data, i + DATA_OFFSET + headerLength, i + DATA_OFFSET + headerLength + itemLength);
      var itemDataHeader := Slice(data, i + DATA_OFFSET, i + DATA_OFFSET + headerLength);
      Ok(Windows(stored, itemDataHeader, itemData))
  }

  /** The header is the data at `[i+12, i+12+headerLength)` and the payload
      the data at `[i+12+headerLength, i+12+storedLength)`, each cut off at
      the end of the data. */
  lemma RecordWindowsSlices(data: seq<uint8>, i: nat, hasHeader: bool)
    requires i + 8 <= |data|
    ensures var w := RecordWindows(data, i, hasHeader).value;
      && IsWindow(data, i + 12, i + 12 + HeaderLength(hasHeader), w.header)
      && IsWindow(data, i + 12 + HeaderLength(hasHeader), i + 12 + w.storedLength, w.payload)
  {
    var hl := HeaderLength(hasHeader);
    var stored: int := RecordWindows(data, i, hasHeader).value.storedLength;
    assert i + DATA_OFFSET + hl + (stored - hl) == i + 12 + stored;
  }

  /** `force ? force : header[at]`. A header byte that is not there reads as
      `undefined`; it is given as 0 here, since the caller skips the record
      for both alike. */
  function Dimension(force: nat, header: seq<uint8>, at: nat): nat
  {
    if force != 0 then force else Stored(Get(header, at))
  }

  /** The group at payload index `j` is the transparency key (1, 1, 1).
      A byte past the end reads as `undefined` and is never equal to 1. */
  predicate IsKeyColor(payload: seq<uint8>, j: int)
  {
    Get(payload, j) == Some(1) && Get(payload, j + 1) == Some(1) && Get(payload, j + 2) == Some(1)
  }

  /** Byte `q` of the decoded RGBA buffer. Pixel 0 and every pixel that no
      payload group reaches stay 0; pixel `k >= 1` comes from the group at
      payload index `3k`, stored blue-red-green: it becomes
      (byte 2, byte 1, byte 0, 255), or all zero for the key color. */
  function PixelByte(payload: seq<uint8>, q: nat): uint8
  {
    var k := q / 4;
    if k == 0 || 3 * k >= |payload| then 0
    else if IsKeyColor(payload, 3 * k) then 0
    else
      var c := q % 4;
      if c == 0 then Stored(Get(payload, 3 * k + 2))
      else if c == 1 then Stored(Get(payload, 3 * k + 1))
      else if c == 2 then Stored(Get(payload, 3 * k))
      else 255
  }

  /** The `width * height * 4` bytes of the decoded image. */
  function Pixels(payload: seq<uint8>, width: nat, height: nat): (px: seq<uint8>)
    ensures |px| == width * height * 4
  {
    seq(width * height * 4, q requires 0 <= q => PixelByte(payload, q))
  }

  /** An assignment into a Uint8Array: an index past the end is ignored. */
  method Store(buf: array<uint8>, q: nat, v: uint8)
    modifies buf
    ensures forall p :: 0 <= p < buf.Length ==> buf[p] == if p == q then v else old(buf[p])
  {
    if q < buf.Length {
      buf[q] := v;
    }
  }

  /** The four assignments of one pixel at `pos`, lowest position first;
      each one past the end is ignored. */
  method StorePixel(buf: array<uint8>, pos: nat, b0: uint8, b1: uint8, b2: uint8, b3: uint8)
    modifies buf
    ensures forall p :: 0 <= p < buf.Length ==>
              buf[p] == (if p == pos then b0 else if p == pos + 1 then b1 else if p == pos + 2 then b2
                         else if p == pos + 3 then b3 else old(buf[p]))
  {
    Store(buf, pos, b0);
    Store(buf, pos + 1, b1);
    Store(buf, pos + 2, b2);
    Store(buf, pos + 3, b3);
  }

  /** The four bytes of pixel `k >= 1`, at `pos = 4k`, whose group lies in
      the payload. */
  lemma PixelGroup(payload: seq<uint8>, k: nat, pos: nat)
    requires 1 <= k && 3 * k < |payload| && pos == 4 * k
    ensures PixelByte(payload, pos) == if IsKeyColor(payload, 3 * k) then 0 else Stored(Get(payload, 3 * k + 2))
    ensures PixelByte(payload, pos + 1) == if IsKeyColor(payload, 3 * k) then 0 else Stored(Get(payload, 3 * k + 1))
    ensures PixelByte(payload, pos + 2) == if IsKeyColor(payload, 3 * k) then 0 else Stored(Get(payload, 3 * k))
    ensures PixelByte(payload, pos + 3) == if IsKeyColor(payload, 3 * k) then 0 else 255
  {
    assert pos / 4 == k && pos % 4 == 0;
    assert (pos + 1) / 4 == k && (pos + 1) % 4 == 1;
    assert (pos + 2) / 4 == k && (pos + 2) % 4 == 2;
    assert (pos + 3) / 4 == k && (pos + 3) % 4 == 3;
  }

  /** Pixels whose group starts at or past the end of the payload stay 0. */
  lemma PixelBeyond(payload: seq<uint8>, q: nat, n: nat)
    requires 4 * n <= q && |payload| <= 3 * n
    ensures PixelByte(payload, q) == 0
  {
    assert q / 4 >= n;
  }

  /** The buffer `png` holds the first `n` pixels of the image and zeros after. */
  ghost predicate UnpackedUpTo(png: seq<uint8>, payload: seq<uint8>, n: nat)
  {
    forall q :: 0 <= q < |png| ==> png[q] == if q < 4 * n then PixelByte(payload, q) else 0
  }

  /** Writing pixel `n` into a buffer that holds the first `n` pixels makes
      it hold the first `n + 1`. */
  lemma UnpackStep(before: seq<uint8>, after: seq<uint8>, payload: seq<uint8>, n: nat, pos: nat,
                   b0: uint8, b1: uint8, b2: uint8, b3: uint8)
    requires UnpackedUpTo(before, payload, n) && pos == 4 * n
    requires PixelByte(payload, pos) == b0 && PixelByte(payload, pos + 1) == b1
    requires PixelByte(payload, pos + 2) == b2 && PixelByte(payload, pos + 3) == b3
    requires |after| == |before|
    requires forall p :: 0 <= p < |after| ==>
               after[p] == (if p == pos then b0 else if p == pos + 1 then b1 else if p == pos + 2 then b2
                            else if p == pos + 3 then b3 else before[p])
    ensures UnpackedUpTo(after, payload, n + 1)
  {
    forall q | 0 <= q < |after|
      ensures after[q] == if q < 4 * (n + 1) then PixelByte(payload, q) else 0
    {
      if q < pos {
        assert after[q] == before[q] == PixelByte(payload, q);
      } else if q == pos {
        assert after[q] == b0;
      } else if q == pos + 1 {
        assert after[q] == b1;
      } else if q == pos + 2 {
        assert after[q] == b2;
      } else if q == pos + 3 {
        assert after[q] == b3;
      } else {
        assert after[q] == before[q] == 0;
      }
    }
  }

  /** One turn of the unpacking loop: the group at payload index `3n` is
      written as pixel `n`, all zero when it is the key color. */
  method UnpackGroup(png: array<uint8>, payload: seq<uint8>, n: nat)
    requires 1 <= n && 3 * n < |payload|
    requires UnpackedUpTo(png[..], payload, n)
    modifies png
    ensures UnpackedUpTo(png[..], payload, n + 1)
  {
    var j := 3 * n;
    var pos := n * 4;
    PixelGroup(payload, n, pos);
    ghost var before := png[..];
    var g := Get(payload, j + 2);
    var r := Get(payload, j + 1);
    var b := Get(payload, j);
    if g == Some(1) && r == Some(1) && b == Some(1) {
      StorePixel(png, pos, 0, 0, 0, 0);
      UnpackStep(before, png[..], payload, n, pos, 0, 0, 0, 0);
    } else {
      StorePixel(png, pos, Stored(g), Stored(r), Stored(b), 255);
      UnpackStep(before, png[..], payload, n, pos, Stored(g), Stored(r), Stored(b), 255);
    }
  }

  /** Once every group of the payload has been written, the buffer is the
      decoded image. */
  lemma UnpackedAll(png: seq<uint8>, payload: seq<uint8>, width: nat, height: nat, n: nat)
    requires |png| == width * height * 4
    requires UnpackedUpTo(png, payload, n) && |payload| <= 3 * n
    ensures png == Pixels(payload, width, height)
  {
    forall q | 4 * n <= q
      ensures PixelByte(payload, q) == 0
    {
      PixelBeyond(payload, q, n);
    }
  }

  /** The unpacking loop of `parseData`: allocates the zeroed buffer of the
      PNG, clears pixel 0, then walks the payload in 3-byte groups from index
      3, writing one pixel per group and dropping writes past the buffer. */
  method UnpackPixels(payload: seq<uint8>, width: nat, height: nat) returns (pixels: seq<uint8>)
    ensures pixels == Pixels(payload, width, height)
  {
    var png := new uint8[width * height * 4](_ => 0);
    ghost var before := png[..];
    StorePixel(png, 0, 0, 0, 0, 0);
    UnpackStep(before, png[..], payload, 0, 0, 0, 0, 0, 0);
    var numNodes := 1;
    var j := 3;
    while j < |payload|
      invariant 1 <= numNodes && j == 3 * numNodes
      invariant j <= |payload| + 3
      invariant UnpackedUpTo(png[..], payload, numNodes)
    {
      UnpackGroup(png, payload, numNodes);
      numNodes := numNodes + 1;
      j := j + 3;
    }
    UnpackedAll(png[..], payload, width, height, numNodes);
    pixels := png[..];
  }

  /** A decoded image: its dimensions and its RGBA bytes, row-major. */
  datatype Picture = Picture(width: nat, height: nat, pixels: seq<uint8>)

  /** What `parseData` makes of the record at `i`: a throw when the stored
      length cannot be read, nothing when the payload is empty or a
      dimension is zero or missing, otherwise the decoded picture. */
  function DecodeRecord(data: seq<uint8>, i: nat, hasHeader: bool, forceWidth: nat, forceHeight: nat)
    : (r: Result<Option<Picture>>)
    ensures r.Err? <==> |data| < i + 8
    ensures r.Err? ==> r.error == OutOfRange(i + 4)
    ensures r.Ok? && r.value.Some? ==>
      var p := r.value.value;
      && 0 < p.width && 0 < p.height
      && |p.pixels| == p.width * p.height * 4
      && (forceWidth != 0 ==> p.width == forceWidth)
      && (forceHeight != 0 ==> p.height == forceHeight)
  {
    match RecordWindows(data, i, hasHeader)
    case Err(e) => Err(e)
    case Ok(w) =>
      if |w.payload| == 0 then Ok(None)
      else
        var width := Dimension(forceWidth, w.header, 2);
        var height := Dimension(forceHeight, w.header, 4);
        if width == 0 || height == 0 then Ok(None)
        else Ok(Some(Picture(width, height, Pixels(w.payload, width, height))))
  }

  /** The width or height a record gets, read straight from the data: the
      forced value when non-zero, else the header byte at `at` when the
      record has a header and that byte exists, else 0 (skip). */
  function ChosenDimension(data: seq<uint8>, i: nat, hasHeader: bool, force: nat, at: nat): nat
  {
    if force != 0 then force
    else if hasHeader && at < 14 && i + 12 + at < |data| then data[i + 12 + at]
    else 0
  }

  /** A dimension read from the header window is the one read from the data. */
  lemma HeaderDimension(data: seq<uint8>, i: nat, hasHeader: bool, header: seq<uint8>, force: nat, at: nat)
    requires IsWindow(data, i + 12, i + 12 + HeaderLength(hasHeader), header)
    ensures Dimension(force, header, at) == ChosenDimension(data, i, hasHeader, force, at)
  {
    if force == 0 && hasHeader && at < 14 && i + 12 + at < |data| {
      assert at < |header|;
    }
  }

  /** A non-empty window is the slice of the data between its bounds. */
  lemma WindowIsSlice(buf: seq<uint8>, start: nat, end: nat, w: seq<uint8>)
    requires IsWindow(buf, start, end, w) && start < Min(end, |buf|)
    ensures w == buf[start..Min(end, |buf|)]
  {
  }

  /** The record decoder in terms of the data bytes alone: with `stored`
      the word at `i + 4`, the payload is the existing part of
      `[i+12+headerLength, i+12+stored)`; the record is skipped exactly when
      that is empty or a chosen dimension is 0. */
  lemma DecodeRecordSkips(data: seq<uint8>, i: nat, hasHeader: bool, forceWidth: nat, forceHeight: nat)
    requires i + 8 <= |data|
    ensures
      var stored := LittleEndian32(data[i + 4], data[i + 5], data[i + 6], data[i + 7]);
      var start := i + 12 + HeaderLength(hasHeader);
      var end := Min(i + 12 + stored, |data|);
      var r := DecodeRecord(data, i, hasHeader, forceWidth, forceHeight);
      && r.Ok?
      && (r.value.None? <==>
            || end <= start
            || ChosenDimension(data, i, hasHeader, forceWidth, 2) == 0
            || ChosenDimension(data, i, hasHeader, forceHeight, 4) == 0)
  {
    RecordWindowsSlices(data, i, hasHeader);
    var w := RecordWindows(data, i, hasHeader).value;
    HeaderDimension(data, i, hasHeader, w.header, forceWidth, 2);
    HeaderDimension(data, i, hasHeader, w.header, forceHeight, 4);
  }

  /** A record that is not skipped yields the chosen dimensions and the
      pixels unpacked from the payload `[i+12+headerLength, i+12+stored)`,
      cut off at the end of the data. */
  lemma DecodeRecordPicture(data: seq<uint8>, i: nat, hasHeader: bool, forceWidth: nat, forceHeight: nat)
    requires i + 8 <= |data|
    requires i + 12 + HeaderLength(hasHeader) < Min(i + 12 + LittleEndian32(data[i + 4], data[i + 5], data[i + 6], data[i + 7]), |data|)
    requires ChosenDimension(data, i, hasHeader, forceWidth, 2) != 0
    requires ChosenDimension(data, i, hasHeader, forceHeight, 4) != 0
    ensures
      var stored := LittleEndian32(data[i + 4], data[i + 5], data[i + 6], data[i + 7]);
      var start := i + 12 + HeaderLength(hasHeader);
      var end := Min(i + 12 + stored, |data|);
      var width := ChosenDimension(data, i, hasHeader, forceWidth, 2);
      var height := ChosenDimension(data, i, hasHeader, forceHeight, 4);
      DecodeRecord(data, i, hasHeader, forceWidth, forceHeight)
        == Ok(Some(Picture(width, height, Pixels(data[start..end], width, height))))
  {
    RecordWindowsSlices(data, i, hasHeader);
    var w := RecordWindows(data, i, hasHeader).value;
    var start := i + 12 + HeaderLength(hasHeader);
    HeaderDimension(data, i, hasHeader, w.header, forceWidth, 2);
    HeaderDimension(data, i, hasHeader, w.header, forceHeight, 4);
    WindowIsSlice(data, start, i + 12 + w.storedLength, w.payload);
  }

  /** A record without a header and without forced dimensions has no header
      bytes to take a width from, so it never yields a picture. */
  lemma NoHeaderNoForcedSizeSkips(data: seq<uint8>, i: nat)
    ensures DecodeRecord(data, i, false, 0, 0).Err? || DecodeRecord(data, i, false, 0, 0) == Ok(None)
  {
  }

  /** A stored length of 20 with a header leaves a payload of 6 bytes when
      the data reaches that far. */
  lemma ScenarioPayloadLength(data: seq<uint8>, i: nat)
    requires i + 32 <= |data|
    requires data[i + 4..i + 8] == [20, 0, 0, 0]
    ensures RecordWindows(data, i, true).Ok?
    ensures RecordWindows(data, i, true).value.storedLength == 20
    ensures |RecordWindows(data, i, true).value.payload| == 6
  {
    assert data[i + 4] == 20 && data[i + 5] == 0 && data[i + 6] == 0 && data[i + 7] == 0;
  }

  /** The rules for one pixel `k` of a `width` by `height` image. */
  lemma {:induction false} PixelRules(payload: seq<uint8>, width: nat, height: nat, k: nat)
    requires k < width * height
    ensures 4 * k + 4 <= |Pixels(payload, width, height)|
    ensures
      var px := Pixels(payload, width, height)[4 * k..4 * k + 4];
      && (k == 0 ==> px == [0, 0, 0, 0])
      && (1 <= k && 3 * k >= |payload| ==> px == [0, 0, 0, 0])
      && (1 <= k && 3 * k < |payload| && IsKeyColor(payload, 3 * k) ==> px == [0, 0, 0, 0])
      && (1 <= k && 3 * k < |payload| && !IsKeyColor(payload, 3 * k) ==>
            px == [Stored(Get(payload, 3 * k + 2)), Stored(Get(payload, 3 * k + 1)), payload[3 * k], 255])
  {
    var all := Pixels(payload, width, height);
    assert 4 * k + 4 <= 4 * (width * height) == |all|;
    var px := all[4 * k..4 * k + 4];
    forall c | 0 <= c < 4
      ensures px[c] == PixelByte(payload, 4 * k + c)
      ensures (4 * k + c) / 4 == k && (4 * k + c) % 4 == c
    {
    }
  }

  /** The leading group, payload bytes 0..2, is never read: payloads that
      differ only there decode to the same pixels. */
  lemma {:induction false} LeadingGroupIgnored(p1: seq<uint8>, p2: seq<uint8>, width: nat, height: nat)
    requires |p1| == |p2|
    requires forall d :: 3 <= d < |p1| ==> p1[d] == p2[d]
    ensures Pixels(p1, width, height) == Pixels(p2, width, height)
  {
    forall q | 0 <= q < width * height * 4
      ensures PixelByte(p1, q) == PixelByte(p2, q)
    {
    }
  }
}
