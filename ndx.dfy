/** The index file: resolving a section to its number, locating the section's
    table of record offsets, and reading that zero-terminated table. */
module Ndx {
  import opened Buffers

  /** What `parseSection` is given: a section number (used as is) or an ASCII
      tag, kept as its bytes, to be looked up in the index. */
  datatype SectionId = Numbered(n: nat) | Tagged(tag: seq<uint8>)

  /** Base of the first section table and the distance between tables. */
  const TABLE_BASE: nat := 0x708 + 0x108
  const TABLE_STRIDE: nat := 0xE0C

  /** The most record offsets a section table holds. */
  const MAX_OFFSETS: nat := 449

  /** `getOffsetFromHeader`: the little-endian word stored 4 bytes before the
      first occurrence of `tag` in the index. When the tag is absent,
      `indexOf` gives -1 and the read at -5 throws; an occurrence closer than
      4 bytes to the start throws as well. */
  function GetOffsetFromHeader(index: seq<uint8>, tag: seq<uint8>): (r: Result<nat>)
    ensures (forall q :: !OccursAt(index, tag, q)) ==> r == Err(OutOfRange(-5))
    ensures forall p :: IsFirstOccurrence(index, tag, p) ==>
              && (r.Ok? <==> 4 <= p)
              && (r.Ok? ==> r.value == LittleEndian32(index[p - 4], index[p - 3], index[p - 2], index[p - 1]))
              && (r.Err? ==> r.error == OutOfRange(p - 4))
  {
    var indexOfHeader := IndexOf(index, tag);
    ReadUInt32LE(index, indexOfHeader - 4)
  }

  /** The offset `parseSection` feeds to the table location: a number is
      taken as it is (`_.isNumber`), a tag is looked up. */
  function ResolveSection(index: seq<uint8>, id: SectionId): (r: Result<nat>)
    ensures id.Numbered? ==> r == Ok(id.n)
    ensures id.Tagged? ==> r == GetOffsetFromHeader(index, id.tag)
  {
    match id
    case Numbered(n) => Ok(n)
    case Tagged(tag) => GetOffsetFromHeader(index, tag)
  }

  /** `headerOffsetIntoNdx`: where the table of section `k` begins. */
  function HeaderOffsetIntoNdx(k: nat): (r: nat)
    ensures r == 0x810 + k * 0xE0C
  {
    0x708 + 0x108 + k * 0xE0C
  }

  /** The table of a section ends before the table of any later section
      begins, so distinct sections never read each other's words. */
  lemma {:induction false} TablesDisjoint(k1: nat, k2: nat)
    requires k1 < k2
    ensures HeaderOffsetIntoNdx(k1) + 4 * MAX_OFFSETS <= HeaderOffsetIntoNdx(k2)
  {
    assert k2 * 0xE0C == k1 * 0xE0C + (k2 - k1) * 0xE0C;
    assert (k2 - k1) * 0xE0C >= 0xE0C;
  }

  /** The k-th word of the table that starts at `offset`. */
  function TableWord(index: seq<uint8>, offset: int, k: nat): Result<nat>
  {
    ReadUInt32LE(index, offset + 4 * k)
  }

  /** The words of the table from slot `k` on, up to the first zero or slot
      449, whichever comes first; a word that cannot be read throws. */
  function OffsetListFrom(index: seq<uint8>, offset: int, k: nat): Result<seq<nat>>
    decreases MAX_OFFSETS - k
  {
    if k >= MAX_OFFSETS then Ok([])
    else
      match TableWord(index, offset, k)
      case Err(e) => Err(e)
      case Ok(w) =>
        if w == 0 then Ok([])
        else
          match OffsetListFrom(index, offset, k + 1)
          case Err(e) => Err(e)
          case Ok(rest) => Ok([w] + rest)
  }

  /** The record offsets of the table at `offset`. */
  function OffsetList(index: seq<uint8>, offset: int): Result<seq<nat>>
  {
    OffsetListFrom(index, offset, 0)
  }

  /** `l` is the run of non-zero words of the table from slot `k` on,
      stopped by a zero word or by the 449-slot cap. */
  ghost predicate IsOffsetListFrom(index: seq<uint8>, offset: int, k: nat, l: seq<nat>)
  {
    && k + |l| <= MAX_OFFSETS
    && (forall j :: 0 <= j < |l| ==> TableWord(index, offset, k + j) == Ok(l[j]) && l[j] != 0)
    && (k + |l| < MAX_OFFSETS ==> TableWord(index, offset, k + |l|) == Ok(0))
  }

  /** `l` is the run of non-zero words at the start of the table, stopped by
      a zero word or by the 449-slot cap. */
  ghost predicate IsOffsetList(index: seq<uint8>, offset: int, l: seq<nat>)
  {
    IsOffsetListFrom(index, offset, 0, l)
  }

  /** Some word before the first zero, among the 449 slots, lies outside the
      index, so the read throws. */
  ghost predicate TableReadFails(index: seq<uint8>, offset: int)
  {
    exists k :: 0 <= k < MAX_OFFSETS && TableWord(index, offset, k).Err? &&
      forall j :: 0 <= j < k ==> TableWord(index, offset, j).Ok? && TableWord(index, offset, j).value != 0
  }

  function Prepend(l: seq<nat>, r: Result<seq<nat>>): Result<seq<nat>>
  {
    match r
    case Err(e) => Err(e)
    case Ok(rest) => Ok(l + rest)
  }

  /** A non-empty run from slot `k` is a non-zero word at `k` followed by a
      run from slot `k + 1`. */
  lemma IsOffsetListFromCons(index: seq<uint8>, offset: int, k: nat, l: seq<nat>)
    requires l != []
    ensures IsOffsetListFrom(index, offset, k, l) <==>
      && TableWord(index, offset, k) == Ok(l[0]) && l[0] != 0
      && IsOffsetListFrom(index, offset, k + 1, l[1..])
  {
    if TableWord(index, offset, k) == Ok(l[0]) && l[0] != 0 && IsOffsetListFrom(index, offset, k + 1, l[1..]) {
      forall j | 0 <= j < |l|
        ensures TableWord(index, offset, k + j) == Ok(l[j]) && l[j] != 0
      {
        if j > 0 {
          assert l[j] == l[1..][j - 1];
          assert k + j == (k + 1) + (j - 1);
        }
      }
      assert k + |l| == (k + 1) + |l[1..]|;
    }
    if IsOffsetListFrom(index, offset, k, l) {
      forall j | 0 <= j < |l[1..]|
        ensures TableWord(index, offset, k + 1 + j) == Ok(l[1..][j]) && l[1..][j] != 0
      {
        assert l[1..][j] == l[j + 1];
        assert k + 1 + j == k + (j + 1);
      }
      assert k + |l| == (k + 1) + |l[1..]|;
      assert TableWord(index, offset, k + 0) == Ok(l[0]);
    }
  }

  /** What the table scan from slot `k` gives, slot by slot. */
  lemma {:induction false} OffsetListFromCases(index: seq<uint8>, offset: int, k: nat, l: seq<nat>)
    requires k <= MAX_OFFSETS
    ensures OffsetListFrom(index, offset, k) == Ok(l) <==> IsOffsetListFrom(index, offset, k, l)
    decreases MAX_OFFSETS - k
  {
    if k == MAX_OFFSETS {
      assert OffsetListFrom(index, offset, k) == Ok([]);
    } else if l == [] {
      assert IsOffsetListFrom(index, offset, k, l) <==> TableWord(index, offset, k) == Ok(0);
    } else {
      IsOffsetListFromCons(index, offset, k, l);
      match TableWord(index, offset, k)
      case Err(e) =>
        assert OffsetListFrom(index, offset, k) == Err(e);
      case Ok(w) =>
        if w == 0 {
          assert OffsetListFrom(index, offset, k) == Ok([]);
        } else {
          OffsetListFromCases(index, offset, k + 1, l[1..]);
          assert l == [l[0]] + l[1..];
        }
    }
  }

  /** The table scan succeeds with `l` exactly when `l` is the run of
      non-zero words before the first zero (or all 449 words). */
  lemma OffsetListSpec(index: seq<uint8>, offset: int, l: seq<nat>)
    ensures OffsetList(index, offset) == Ok(l) <==> IsOffsetList(index, offset, l)
  {
    OffsetListFromCases(index, offset, 0, l);
  }

  lemma {:induction false} OffsetListFromFails(index: seq<uint8>, offset: int, k: nat)
    requires k <= MAX_OFFSETS
    ensures OffsetListFrom(index, offset, k).Err? <==>
      exists m :: k <= m < MAX_OFFSETS && TableWord(index, offset, m).Err? &&
        forall j :: k <= j < m ==> TableWord(index, offset, j).Ok? && TableWord(index, offset, j).value != 0
    decreases MAX_OFFSETS - k
  {
    if k < MAX_OFFSETS {
      OffsetListFromFails(index, offset, k + 1);
      match TableWord(index, offset, k)
      case Err(e) =>
      case Ok(w) =>
        if w == 0 {
          forall m | k <= m < MAX_OFFSETS && TableWord(index, offset, m).Err?
            ensures exists j :: k <= j < m && !(TableWord(index, offset, j).Ok? && TableWord(index, offset, j).value != 0)
          {
            assert m != k;
            assert !(TableWord(index, offset, k).Ok? && TableWord(index, offset, k).value != 0);
          }
        }
    }
  }

  /** The table scan throws exactly when a word before the first zero is out
      of range. */
  lemma TableFailure(index: seq<uint8>, offset: int)
    ensures OffsetList(index, offset).Err? <==> TableReadFails(index, offset)
  {
    OffsetListFromFails(index, offset, 0);
  }

  /** A scan from slot `k` that throws, throws at the first unreadable
      word before a zero: the read of slot `m`, at `offset + 4 * m`. */
  lemma {:induction false} OffsetListFromError(index: seq<uint8>, offset: int, k: nat)
    requires k <= MAX_OFFSETS
    requires OffsetListFrom(index, offset, k).Err?
    ensures exists m ::
              && k <= m < MAX_OFFSETS && TableWord(index, offset, m).Err?
              && (forall j :: k <= j < m ==> TableWord(index, offset, j).Ok? && TableWord(index, offset, j).value != 0)
              && OffsetListFrom(index, offset, k).error == OutOfRange(offset + 4 * m)
    decreases MAX_OFFSETS - k
  {
    match TableWord(index, offset, k)
    case Err(e) =>
      assert OffsetListFrom(index, offset, k).error == OutOfRange(offset + 4 * k);
    case Ok(w) =>
      OffsetListFromError(index, offset, k + 1);
      var m :| k + 1 <= m < MAX_OFFSETS && TableWord(index, offset, m).Err? &&
        (forall j :: k + 1 <= j < m ==> TableWord(index, offset, j).Ok? && TableWord(index, offset, j).value != 0) &&
        OffsetListFrom(index, offset, k + 1).error == OutOfRange(offset + 4 * m);
      assert OffsetListFrom(index, offset, k).error == OffsetListFrom(index, offset, k + 1).error;
  }

  /** The error a failing table scan throws: the out-of-range read of the
      first unreadable word before a zero. */
  lemma TableFailureError(index: seq<uint8>, offset: int)
    requires OffsetList(index, offset).Err?
    ensures exists k ::
              && 0 <= k < MAX_OFFSETS && TableWord(index, offset, k).Err?
              && (forall j :: 0 <= j < k ==> TableWord(index, offset, j).Ok? && TableWord(index, offset, j).value != 0)
              && OffsetList(index, offset).error == OutOfRange(offset + 4 * k)
  {
    OffsetListFromError(index, offset, 0);
  }

  /** One step of the table scan, with the words gathered so far in `acc`. */
  lemma ScanStep(index: seq<uint8>, offset: int, acc: seq<nat>, k: nat)
    requires k < MAX_OFFSETS
    ensures TableWord(index, offset, k).Err? ==>
      Prepend(acc, OffsetListFrom(index, offset, k)) == Err(TableWord(index, offset, k).error)
    ensures TableWord(index, offset, k) == Ok(0) ==>
      Prepend(acc, OffsetListFrom(index, offset, k)) == Ok(acc)
    ensures TableWord(index, offset, k).Ok? && TableWord(index, offset, k).value != 0 ==>
      Prepend(acc, OffsetListFrom(index, offset, k)) ==
      Prepend(acc + [TableWord(index, offset, k).value], OffsetListFrom(index, offset, k + 1))
  {
    assert acc + [] == acc;
    match OffsetListFrom(index, offset, k + 1) {
      case Err(_) =>
      case Ok(rest) =>
        forall w: nat ensures acc + [w] + rest == acc + ([w] + rest) {
        }
    }
  }

  /** `getAllDatIndicesFromNdx`: pushes each word of the table at `offset`
      into a list, returning early at the first zero word and after at most
      449 words; a word outside the index throws. */
  method GetAllDatIndicesFromNdx(index: seq<uint8>, offset: int) returns (r: Result<seq<nat>>)
    ensures r == OffsetList(index, offset)
  {
    var indices: seq<nat> := [];
    var i := 0;
    assert Prepend([], OffsetListFrom(index, offset, 0)) == OffsetListFrom(index, offset, 0) by {
      match OffsetListFrom(index, offset, 0)
      case Err(_) =>
      case Ok(rest) => assert [] + rest == rest;
    }
    while i < MAX_OFFSETS * 4
      invariant 0 <= i <= MAX_OFFSETS * 4
      invariant i == 4 * |indices|
      invariant OffsetList(index, offset) == Prepend(indices, OffsetListFrom(index, offset, |indices|))
      decreases MAX_OFFSETS * 4 - i
    {
      var repData := ReadUInt32LE(index, offset + i);
      assert repData == TableWord(index, offset, |indices|);
      ScanStep(index, offset, indices, |indices|);
      if repData.Err? {
        return Err(repData.error);
      }
      if repData.value == 0 {
        return Ok(indices);
      }
      indices := indices + [repData.value];
      i := i + 4;
    }
    assert indices + [] == indices;
    return Ok(indices);
  }

  /** A table starting with the words 5, 10, 0 yields [5, 10] whatever
      follows: the scan stops at the zero and never looks further. */
  lemma ScenarioStopsAtZero(index: seq<uint8>, offset: nat)
    requires offset + 12 <= |index|
    requires index[offset..offset + 12] == [5, 0, 0, 0, 10, 0, 0, 0, 0, 0, 0, 0]
    ensures OffsetList(index, offset) == Ok([5, 10])
  {
    assert TableWord(index, offset, 0) == Ok(5);
    assert TableWord(index, offset, 1) == Ok(10);
    assert TableWord(index, offset, 2) == Ok(0);
    assert OffsetListFrom(index, offset, 2) == Ok([]);
    assert [10] + [] == [10];
    assert OffsetListFrom(index, offset, 1) == Ok([10]);
    assert [5] + [10] == [5, 10];
  }

  /** An index holding the tag "TEST" preceded by the word 0x100 resolves the
      tag to 256, provided "TEST" does not occur earlier. */
  lemma ScenarioTagLookup(index: seq<uint8>, p: nat)
    requires 4 <= p
    requires IsFirstOccurrence(index, [0x54, 0x45, 0x53, 0x54], p)
    requires index[p - 4..p] == EncodeUInt32LE(0x100)
    ensures GetOffsetFromHeader(index, [0x54, 0x45, 0x53, 0x54]) == Ok(256)
  {
    assert index == index[..p - 4] + EncodeUInt32LE(0x100) + index[p..];
    ReadEncoded(index[..p - 4], 0x100, index[p..]);
  }
}
