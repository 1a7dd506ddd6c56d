/** The batch driver: the `drak24` loop over sections 0..67 with its table of
    ignored sections and its per-section arguments, `parseSection`, and the
    two counters `totalImages` and `curImage` that `parseData` advances for
    every image it hands to the PNG encoder. */
module Driver {
  import opened Buffers
  import opened Ndx
  import opened Record

  /** Sections the loop visits: 0 up to, not including, 68. */
  const SECTION_COUNT: nat := 68

  /** `ignoreSections`: terrain, character portraits, discs and the rest. */
  const IgnoreSections: seq<nat> :=
    [0, 1, 2, 3, 4, 5, 8, 9, 11, 12, 13, 14, 15, 16, 17, 18, 19, 20, 21, 22, 23, 25] +
    [32, 33, 34, 35, 36, 37, 38, 39, 40, 41, 42, 43, 44, 45, 46, 47, 48, 49,
     50, 51, 52, 53, 54, 55, 56, 57, 58, 59, 60, 61, 62, 63, 64, 65, 66, 67]

  /** The sections the list names, as ranges. */
  predicate Ignored(i: nat)
  {
    i <= 5 || i == 8 || i == 9 || 11 <= i <= 23 || i == 25 || 32 <= i <= 67
  }

  /** `_.includes(ignoreSections, i)` holds exactly for the ranges of `Ignored`. */
  lemma IgnoredIsListed(i: nat)
    ensures Ignored(i) <==> i in IgnoreSections
  {
  }

  /** What `parseData` is told about the records of a section. */
  datatype SectionArgs = SectionArgs(header: bool, width: nat, height: nat)

  const Forced64: SectionArgs := SectionArgs(true, 64, 64)

  /** `sectionArgs`. */
  const SectionArgsTable: map<nat, SectionArgs> := map[
    1 := Forced64, 2 := Forced64, 3 := Forced64, 4 := Forced64, 5 := Forced64,
    6 := Forced64, 7 := Forced64, 8 := Forced64, 9 := Forced64, 10 := Forced64,
    11 := Forced64, 12 := Forced64, 13 := Forced64, 14 := Forced64, 15 := Forced64,
    16 := Forced64, 17 := Forced64, 18 := Forced64, 19 := Forced64, 20 := Forced64,
    21 := Forced64, 22 := Forced64, 23 := Forced64, 24 := Forced64, 25 := Forced64,
    26 := Forced64, 27 := Forced64, 28 := Forced64, 29 := Forced64, 30 := Forced64,
    31 := Forced64, 32 := Forced64, 33 := Forced64, 35 := Forced64, 36 := Forced64]

  /** The arguments section `i` ends up with: its table entry, or, for a
      missing entry (`opts = {}`), the defaults of `parseData`'s parameters:
      a header and no forced size. */
  function Options(i: nat): (o: SectionArgs)
    ensures i in SectionArgsTable ==> o == SectionArgsTable[i]
    ensures i !in SectionArgsTable ==> o == SectionArgs(true, 0, 0)
  {
    if i in SectionArgsTable then SectionArgsTable[i] else SectionArgs(true, 0, 0)
  }

  /** An image handed to the PNG encoder, written as `<section>-<counter>.png`. */
  datatype Emitted = Emitted(section: SectionId, counter: nat, picture: Picture)

  /** The line `parseSection` logs on entry: the section and the number of
      images emitted so far. */
  datatype LogLine = LogLine(section: SectionId, totalImages: nat)

  /** The program's mutable state: both counters, the images emitted and the
      lines logged. */
  datatype State = State(totalImages: nat, curImage: nat, emitted: seq<Emitted>, log: seq<LogLine>)

  /** A state reached, with the error that was thrown there, if any. A throw
      is never caught, so it ends the run. */
  datatype Run = Run(state: State, failure: Option<Error>)

  const Initial: State := State(0, 0, [], [])

  /** `totalImages++` and the write to `<section>-<curImage++>.png`. */
  function Emit(st: State, section: SectionId, p: Picture): State
  {
    st.(totalImages := st.totalImages + 1, curImage := st.curImage + 1,
        emitted := st.emitted + [Emitted(section, st.curImage, p)])
  }

  /** `parseData` on one record offset. */
  function ParseDataStep(data: seq<uint8>, st: State, i: nat, section: SectionId, args: SectionArgs): Result<State>
  {
    match DecodeRecord(data, i, args.header, args.width, args.height)
    case Err(e) => Err(e)
    case Ok(None) => Ok(st)
    case Ok(Some(p)) => Ok(Emit(st, section, p))
  }

  /** `getDatDataFromIndices`: `parseData` on each offset in list order. */
  function RunRecords(data: seq<uint8>, offsets: seq<nat>, section: SectionId, args: SectionArgs, st: State): Run
    decreases |offsets|
  {
    if offsets == [] then Run(st, None)
    else
      match ParseDataStep(data, st, offsets[0], section, args)
      case Err(e) => Run(st, Some(e))
      case Ok(st') => RunRecords(data, offsets[1..], section, args, st')
  }

  /** The state `parseSection` starts decoding from: the line logged and
      `curImage` reset. */
  function SectionStart(st: State, id: SectionId): State
  {
    st.(log := st.log + [LogLine(id, st.totalImages)], curImage := 0)
  }

  /** `parseSection`: logs, resets `curImage`, resolves the section, reads
      its table of offsets and decodes each record. */
  function RunSection(index: seq<uint8>, data: seq<uint8>, id: SectionId, args: SectionArgs, st: State): Run
  {
    var st0 := SectionStart(st, id);
    match ResolveSection(index, id)
    case Err(e) => Run(st0, Some(e))
    case Ok(offset) =>
      match OffsetList(index, HeaderOffsetIntoNdx(offset))
      case Err(e) => Run(st0, Some(e))
      case Ok(offsets) => RunRecords(data, offsets, id, args, st0)
  }

  /** One turn of the `drak24` loop: nothing for an ignored section, else
      `parseSection` with the section's arguments. */
  function SectionTurn(index: seq<uint8>, data: seq<uint8>, i: nat, st: State): Run
  {
    if Ignored(i) then Run(st, None)
    else RunSection(index, data, Numbered(i), Options(i), st)
  }

  /** The `drak24` loop from section `i` on, given what one turn does. */
  function Loop(turn: (nat, State) -> Run, i: nat, st: State): Run
    decreases SECTION_COUNT - i
  {
    if i >= SECTION_COUNT then Run(st, None)
    else
      var r := turn(i, st);
      if r.failure.Some? then r else Loop(turn, i + 1, r.state)
  }

  function Turns(index: seq<uint8>, data: seq<uint8>): (nat, State) -> Run
  {
    (i: nat, st: State) => SectionTurn(index, data, i, st)
  }

  /** The `drak24` loop from section `i` on. */
  function RunDrak24From(index: seq<uint8>, data: seq<uint8>, i: nat, st: State): Run
  {
    Loop(Turns(index, data), i, st)
  }

  /** The whole run, from the counters' initial zeros. */
  function RunDrak24(index: seq<uint8>, data: seq<uint8>): Run
  {
    RunDrak24From(index, data, 0, Initial)
  }

  /** The sections from `i` on that the loop passes to `parseSection`, in order. */
  function VisitedFrom(i: nat): seq<SectionId>
    decreases SECTION_COUNT - i
  {
    if i >= SECTION_COUNT then []
    else (if Ignored(i) then [] else [Numbered(i)]) + VisitedFrom(i + 1)
  }

  /** Every section the loop passes on from `i` is a numbered section from
      `i` to 67 that is not ignored. */
  lemma {:induction false} VisitedFromSound(i: nat)
    ensures forall id :: id in VisitedFrom(i) ==>
      id.Numbered? && i <= id.n < SECTION_COUNT && !Ignored(id.n)
    decreases SECTION_COUNT - i
  {
    if i < SECTION_COUNT {
      VisitedFromSound(i + 1);
    }
  }

  /** Every numbered section from `i` to 67 that is not ignored is passed on. */
  lemma {:induction false} VisitedFromComplete(i: nat)
    ensures forall n: nat :: i <= n < SECTION_COUNT && !Ignored(n) ==> Numbered(n) in VisitedFrom(i)
    decreases SECTION_COUNT - i
  {
    if i < SECTION_COUNT {
      VisitedFromComplete(i + 1);
      var head: seq<SectionId> := if Ignored(i) then [] else [Numbered(i)];
      var rest := VisitedFrom(i + 1);
      assert VisitedFrom(i) == head + rest;
      forall n: nat | i <= n < SECTION_COUNT && !Ignored(n)
        ensures Numbered(n) in head + rest
      {
        if n == i {
          assert Numbered(n) in head;
        } else {
          assert Numbered(n) in rest;
        }
      }
    }
  }

  /** Numbered sections in strictly ascending order. */
  ghost predicate Ascending(v: seq<SectionId>)
  {
    forall x, y :: 0 <= x < y < |v| ==> v[x].Numbered? && v[y].Numbered? && v[x].n < v[y].n
  }

  lemma ConsAscending(id: SectionId, rest: seq<SectionId>)
    requires id.Numbered? && Ascending(rest)
    requires forall e :: e in rest ==> e.Numbered? && id.n < e.n
    ensures Ascending([id] + rest)
  {
    var v := [id] + rest;
    forall x, y | 0 <= x < y < |v|
      ensures v[x].Numbered? && v[y].Numbered? && v[x].n < v[y].n
    {
      assert v[y] == rest[y - 1] && rest[y - 1] in rest;
      if 0 < x {
        assert v[x] == rest[x - 1];
      }
    }
  }

  /** The sections are passed on in strictly ascending order, so each once. */
  lemma {:induction false} VisitedFromAscending(i: nat)
    ensures Ascending(VisitedFrom(i))
    decreases SECTION_COUNT - i
  {
    if i < SECTION_COUNT {
      VisitedFromAscending(i + 1);
      var rest := VisitedFrom(i + 1);
      if Ignored(i) {
        assert VisitedFrom(i) == [] + rest == rest;
      } else {
        VisitedFromSound(i + 1);
        ConsAscending(Numbered(i), rest);
      }
    }
  }

  /** Every section the loop does not ignore has the arguments
      header / 64 / 64. */
  lemma ProcessedSectionsForced(i: nat)
    requires i < SECTION_COUNT && !Ignored(i)
    ensures Options(i) == Forced64
  {
    assert i == 6 || i == 7 || i == 10 || i == 24 || i == 26 || i == 27 || i == 28 || i == 29 || i == 30 || i == 31;
  }

  // ---------------------------------------------------------------------
  // What a run does to the state

  /** What `parseData` promises about an emitted picture under `args`. */
  ghost predicate Fits(p: Picture, args: SectionArgs)
  {
    && 0 < p.width && 0 < p.height
    && |p.pixels| == p.width * p.height * 4
    && (args.width != 0 ==> p.width == args.width)
    && (args.height != 0 ==> p.height == args.height)
  }

  /** Going from `st` to `st2` only appends images of `section`, numbered on
      from `st.curImage`, both counters advance by the number appended, and
      nothing is logged. */
  ghost predicate AppendsImages(st: State, st2: State, section: SectionId, args: SectionArgs)
  {
    var n := |st.emitted|;
    && st2.log == st.log
    && n <= |st2.emitted|
    && st2.emitted[..n] == st.emitted
    && st2.totalImages == st.totalImages + (|st2.emitted| - n)
    && st2.curImage == st.curImage + (|st2.emitted| - n)
    && forall k :: n <= k < |st2.emitted| ==>
         && st2.emitted[k].section == section
         && st2.emitted[k].counter == st.curImage + (k - n)
         && Fits(st2.emitted[k].picture, args)
  }

  lemma AppendsTransitive(st0: State, st1: State, st2: State, section: SectionId, args: SectionArgs)
    requires AppendsImages(st0, st1, section, args) && AppendsImages(st1, st2, section, args)
    ensures AppendsImages(st0, st2, section, args)
  {
    var n0, n1 := |st0.emitted|, |st1.emitted|;
    assert st2.emitted[..n0] == st2.emitted[..n1][..n0];
    forall k | n0 <= k < n1
      ensures st2.emitted[k] == st1.emitted[k]
    {
      assert st2.emitted[k] == st2.emitted[..n1][k];
    }
  }

  /** `parseData` emits at most one picture, of its section, numbered
      `curImage`, and moves both counters with it. */
  lemma ParseDataAppends(data: seq<uint8>, st: State, i: nat, section: SectionId, args: SectionArgs)
    requires ParseDataStep(data, st, i, section, args).Ok?
    ensures AppendsImages(st, ParseDataStep(data, st, i, section, args).value, section, args)
    ensures |ParseDataStep(data, st, i, section, args).value.emitted| <= |st.emitted| + 1
    ensures DecodeRecord(data, i, args.header, args.width, args.height) == Ok(None) ==>
      ParseDataStep(data, st, i, section, args).value == st
    ensures forall p :: DecodeRecord(data, i, args.header, args.width, args.height) == Ok(Some(p)) ==>
      ParseDataStep(data, st, i, section, args).value.emitted == st.emitted + [Emitted(section, st.curImage, p)]
  {
    assert st.emitted[..|st.emitted|] == st.emitted;
  }

  /** Decoding a list of records appends the emitted images in order. */
  lemma {:induction false} RunRecordsAppends(data: seq<uint8>, offsets: seq<nat>, section: SectionId, args: SectionArgs, st: State)
    ensures AppendsImages(st, RunRecords(data, offsets, section, args, st).state, section, args)
    decreases |offsets|
  {
    assert st.emitted[..|st.emitted|] == st.emitted;
    if offsets != [] {
      match ParseDataStep(data, st, offsets[0], section, args)
      case Err(e) =>
      case Ok(st1) =>
        ParseDataAppends(data, st, offsets[0], section, args);
        RunRecordsAppends(data, offsets[1..], section, args, st1);
        AppendsTransitive(st, st1, RunRecords(data, offsets[1..], section, args, st1).state, section, args);
    }
  }

  /** A section logs one line, then numbers its images from 0: afterwards
      `curImage` is the number of images the section emitted, and
      `totalImages` grew by as many. */
  lemma RunSectionAppends(index: seq<uint8>, data: seq<uint8>, id: SectionId, args: SectionArgs, st: State)
    ensures AppendsImages(SectionStart(st, id), RunSection(index, data, id, args, st).state, id, args)
  {
    var st0 := SectionStart(st, id);
    assert st0.emitted[..|st0.emitted|] == st0.emitted;
    match ResolveSection(index, id)
    case Err(e) =>
    case Ok(offset) =>
      match OffsetList(index, HeaderOffsetIntoNdx(offset))
      case Err(e) =>
      case Ok(offsets) => RunRecordsAppends(data, offsets, id, args, st0);
  }

  // ---------------------------------------------------------------------
  // What the whole run guarantees

  function SectionNumber(e: Emitted): int
  {
    if e.section.Numbered? then e.section.n else -1
  }

  /** An image the loop emitted before reaching section `i`. */
  ghost predicate FromSectionBelow(e: Emitted, i: nat)
  {
    && e.section.Numbered?
    && e.section.n < i
    && !Ignored(e.section.n)
    && e.picture.width == 64 && e.picture.height == 64
    && |e.picture.pixels| == 64 * 64 * 4
  }

  /** Images come in ascending section order. */
  ghost predicate SectionsAscend(em: seq<Emitted>)
  {
    forall a, b :: 0 <= a < b < |em| ==> SectionNumber(em[a]) <= SectionNumber(em[b])
  }

  /** Within a section the counters go 0, 1, 2, ... */
  ghost predicate CountersConsecutive(em: seq<Emitted>)
  {
    forall k :: 0 <= k < |em| ==>
      em[k].counter == if 0 < k && em[k - 1].section == em[k].section then em[k - 1].counter + 1 else 0
  }

  /** No two images share a file name `<section>-<counter>.png`. */
  ghost predicate NamesDistinct(em: seq<Emitted>)
  {
    forall a, b :: 0 <= a < b < |em| ==> (em[a].section, em[a].counter) != (em[b].section, em[b].counter)
  }

  /** The invariant of the `drak24` loop before section `i`:
      `totalImages` counts every emitted image; each comes from a visited
      section below `i` and is 64 by 64; sections appear in ascending
      order; within a section counters go 0, 1, 2, ...; and no two images
      share a file name. */
  ghost predicate DriverInvariant(st: State, i: nat)
  {
    var em := st.emitted;
    && st.totalImages == |em|
    && (forall k :: 0 <= k < |em| ==> FromSectionBelow(em[k], i))
    && SectionsAscend(em)
    && CountersConsecutive(em)
    && NamesDistinct(em)
  }

  lemma DriverInvariantWeaken(st: State, i: nat, j: nat)
    requires DriverInvariant(st, i) && i <= j
    ensures DriverInvariant(st, j)
  {
  }

  /** The images a visited section `i` appends after those of the sections
      before it. */
  ghost predicate SectionAppended(st: State, st2: State, i: nat)
  {
    && AppendsImages(SectionStart(st, Numbered(i)), st2, Numbered(i), Forced64)
    && (forall k :: 0 <= k < |st.emitted| ==> FromSectionBelow(st.emitted[k], i))
  }

  lemma KeptPrefix(st: State, st2: State, i: nat)
    requires SectionAppended(st, st2, i)
    ensures forall k :: 0 <= k < |st.emitted| ==> st2.emitted[k] == st.emitted[k]
  {
    var n := |st.emitted|;
    forall k | 0 <= k < n
      ensures st2.emitted[k] == st.emitted[k]
    {
      assert st2.emitted[k] == st2.emitted[..n][k];
    }
  }

  lemma StepFromBelow(st: State, st2: State, i: nat)
    requires SectionAppended(st, st2, i) && !Ignored(i)
    ensures forall k :: 0 <= k < |st2.emitted| ==> FromSectionBelow(st2.emitted[k], i + 1)
  {
    KeptPrefix(st, st2, i);
    forall k | |st.emitted| <= k < |st2.emitted|
      ensures FromSectionBelow(st2.emitted[k], i + 1)
    {
      assert Fits(st2.emitted[k].picture, Forced64);
    }
  }

  lemma StepAscend(st: State, st2: State, i: nat)
    requires SectionAppended(st, st2, i) && SectionsAscend(st.emitted)
    ensures SectionsAscend(st2.emitted)
  {
    KeptPrefix(st, st2, i);
    var n := |st.emitted|;
    forall a, b | 0 <= a < b < |st2.emitted|
      ensures SectionNumber(st2.emitted[a]) <= SectionNumber(st2.emitted[b])
    {
      if b < n {
      } else if a < n {
        assert FromSectionBelow(st.emitted[a], i);
      }
    }
  }

  lemma StepCounters(st: State, st2: State, i: nat)
    requires SectionAppended(st, st2, i) && CountersConsecutive(st.emitted)
    ensures CountersConsecutive(st2.emitted)
  {
    KeptPrefix(st, st2, i);
    var n := |st.emitted|;
    forall k | 0 <= k < |st2.emitted|
      ensures st2.emitted[k].counter ==
        if 0 < k && st2.emitted[k - 1].section == st2.emitted[k].section then st2.emitted[k - 1].counter + 1 else 0
    {
      if k == n && 0 < k {
        assert FromSectionBelow(st.emitted[k - 1], i);
        assert st2.emitted[k - 1].section != st2.emitted[k].section;
      } else if n < k {
        assert st2.emitted[k - 1].section == Numbered(i) == st2.emitted[k].section;
        assert st2.emitted[k].counter == st2.emitted[k - 1].counter + 1;
      }
    }
  }

  lemma StepDistinct(st: State, st2: State, i: nat)
    requires SectionAppended(st, st2, i) && NamesDistinct(st.emitted)
    ensures NamesDistinct(st2.emitted)
  {
    KeptPrefix(st, st2, i);
    var n := |st.emitted|;
    forall a, b | 0 <= a < b < |st2.emitted|
      ensures (st2.emitted[a].section, st2.emitted[a].counter) != (st2.emitted[b].section, st2.emitted[b].counter)
    {
      if b < n {
      } else if a < n {
        assert FromSectionBelow(st.emitted[a], i);
      }
    }
  }

  /** One visited section keeps the loop invariant. */
  lemma DriverStep(st: State, st2: State, i: nat)
    requires DriverInvariant(st, i)
    requires !Ignored(i)
    requires AppendsImages(SectionStart(st, Numbered(i)), st2, Numbered(i), Forced64)
    ensures DriverInvariant(st2, i + 1)
  {
    StepFromBelow(st, st2, i);
    StepAscend(st, st2, i);
    StepCounters(st, st2, i);
    StepDistinct(st, st2, i);
  }

  /** What one turn of the loop does: nothing for an ignored section; for a
      visited one, a logged line and the images of that section, 64 by 64. */
  ghost predicate TurnsBehave(turn: (nat, State) -> Run)
  {
    forall i: nat, st: State :: i < SECTION_COUNT ==>
      && (Ignored(i) ==> turn(i, st) == Run(st, None))
      && (!Ignored(i) ==> AppendsImages(SectionStart(st, Numbered(i)), turn(i, st).state, Numbered(i), Forced64))
  }

  lemma TurnsOfDrak24Behave(index: seq<uint8>, data: seq<uint8>)
    ensures TurnsBehave(Turns(index, data))
  {
    forall i: nat, st: State | i < SECTION_COUNT && !Ignored(i)
      ensures AppendsImages(SectionStart(st, Numbered(i)), Turns(index, data)(i, st).state, Numbered(i), Forced64)
    {
      ProcessedSectionsForced(i);
      RunSectionAppends(index, data, Numbered(i), Options(i), st);
    }
  }

  lemma {:induction false} LoopKeeps(turn: (nat, State) -> Run, i: nat, st: State)
    requires TurnsBehave(turn)
    requires i <= SECTION_COUNT
    requires DriverInvariant(st, i)
    ensures DriverInvariant(Loop(turn, i, st).state, SECTION_COUNT)
    decreases SECTION_COUNT - i
  {
    if i >= SECTION_COUNT {
      DriverInvariantWeaken(st, i, SECTION_COUNT);
    } else {
      var r := turn(i, st);
      if Ignored(i) {
        DriverInvariantWeaken(st, i, i + 1);
      } else {
        DriverStep(st, r.state, i);
      }
      if r.failure.Some? {
        DriverInvariantWeaken(r.state, i + 1, SECTION_COUNT);
      } else {
        LoopKeeps(turn, i + 1, r.state);
      }
    }
  }

  /** `st2.log` extends `st.log` by lines for a prefix of `ids`. */
  ghost predicate LogsPrefix(st: State, st2: State, ids: seq<SectionId>)
  {
    var n := |st.log|;
    && n <= |st2.log| <= n + |ids|
    && st2.log[..n] == st.log
    && forall k :: n <= k < |st2.log| ==> st2.log[k].section == ids[k - n]
  }

  /** A turn that logs the lines for `head`, followed by a run that logs
      a prefix of `rest`, logs a prefix of `head + rest`. */
  lemma LogsPrefixCompose(st: State, st1: State, st2: State, head: seq<SectionId>, rest: seq<SectionId>)
    requires |st1.log| == |st.log| + |head| && LogsPrefix(st, st1, head)
    requires LogsPrefix(st1, st2, rest)
    ensures LogsPrefix(st, st2, head + rest)
  {
    var n, m := |st.log|, |st1.log|;
    assert st2.log[..n] == st2.log[..m][..n];
    forall k | n <= k < |st2.log|
      ensures st2.log[k].section == (head + rest)[k - n]
    {
      if k < m {
        assert st2.log[k] == st2.log[..m][k];
      }
    }
  }

  /** The loop from section `i` logs a line for each section it passes to
      `parseSection`, in order: for all of `VisitedFrom(i)` when it runs to
      the end, and when a throw stops it, for a non-empty prefix of them. */
  lemma {:induction false} LoopLog(turn: (nat, State) -> Run, i: nat, st: State)
    requires TurnsBehave(turn)
    ensures var r := Loop(turn, i, st);
      && LogsPrefix(st, r.state, VisitedFrom(i))
      && (r.failure.None? ==> |r.state.log| == |st.log| + |VisitedFrom(i)|)
      && (r.failure.Some? ==> |st.log| < |r.state.log|)
    decreases SECTION_COUNT - i
  {
    assert st.log[..|st.log|] == st.log;
    if i < SECTION_COUNT {
      var r1 := turn(i, st);
      if Ignored(i) {
        assert r1 == Run(st, None);
        assert VisitedFrom(i) == VisitedFrom(i + 1);
        LoopLog(turn, i + 1, st);
      } else {
        var head := [Numbered(i)];
        assert VisitedFrom(i) == head + VisitedFrom(i + 1);
        assert r1.state.log == st.log + [LogLine(Numbered(i), st.totalImages)];
        if r1.failure.None? {
          LoopLog(turn, i + 1, r1.state);
          LogsPrefixCompose(st, r1.state, Loop(turn, i + 1, r1.state).state, head, VisitedFrom(i + 1));
        }
      }
    }
  }

  /** The run as a whole, finished or stopped by a throw: `totalImages` is
      the number of emitted images, all from sections that are not ignored,
      all 64 by 64, in ascending section order, numbered 0, 1, 2, ... within
      each section, and with pairwise distinct file names; and the log names
      the sections passed to `parseSection`, a prefix of the sections 0..67
      not ignored, all of them unless a throw stopped the run. */
  lemma Drak24Outcome(index: seq<uint8>, data: seq<uint8>)
    ensures DriverInvariant(RunDrak24(index, data).state, SECTION_COUNT)
    ensures LogsPrefix(Initial, RunDrak24(index, data).state, VisitedFrom(0))
    ensures RunDrak24(index, data).failure.None? ==> |RunDrak24(index, data).state.log| == |VisitedFrom(0)|
  {
    TurnsOfDrak24Behave(index, data);
    LoopKeeps(Turns(index, data), 0, Initial);
    LoopLog(Turns(index, data), 0, Initial);
  }

  /** Section 66 (discs) is ignored: it is never passed to `parseSection`
      and no image is named after it. */
  lemma Section66Ignored(index: seq<uint8>, data: seq<uint8>)
    ensures 66 in IgnoreSections
    ensures Numbered(66) !in VisitedFrom(0)
    ensures forall e :: e in RunDrak24(index, data).state.emitted ==> e.section != Numbered(66)
  {
    IgnoredIsListed(66);
    VisitedFromSound(0);
    Drak24Outcome(index, data);
  }

  // ---------------------------------------------------------------------
  // The program's state, updated in place as the script does

  class Extractor {
    /** The index and data files, read once at start-up. */
    const index: seq<uint8>
    const data: seq<uint8>

    var totalImages: nat
    var curImage: nat
    /** The images handed to the PNG encoder, in order. */
    var emitted: seq<Emitted>
    /** The lines logged, in order. */
    var log: seq<LogLine>

    ghost predicate Valid()
      reads this
    {
      totalImages == |emitted|
    }

    function Snapshot(): State
      reads this
    {
      State(totalImages, curImage, emitted, log)
    }

    constructor (index: seq<uint8>, data: seq<uint8>)
      ensures this.index == index && this.data == data
      ensures Snapshot() == Initial
      ensures Valid()
    {
      this.index := index;
      this.data := data;
      totalImages := 0;
      curImage := 0;
      emitted := [];
      log := [];
    }

    /** `parseData`. */
    method ParseData(i: nat, sectionId: SectionId, hasHeader: bool, forceWidth: nat, forceHeight: nat)
      returns (failure: Option<Error>)
      requires Valid()
      modifies this`totalImages, this`curImage, this`emitted
      ensures Valid()
      ensures match ParseDataStep(data, old(Snapshot()), i, sectionId, SectionArgs(hasHeader, forceWidth, forceHeight))
              case Err(e) => failure == Some(e) && Snapshot() == old(Snapshot())
              case Ok(st) => failure == None && Snapshot() == st
    {
      ghost var decoded := DecodeRecord(data, i, hasHeader, forceWidth, forceHeight);
      var headerLength := HeaderLength(hasHeader);
      var stored := ReadUInt32LE(data, i + 4);
      if stored.Err? {
        return Some(stored.error);
      }
      var itemLength := stored.value - headerLength;
      var itemData := Slice(data, i + DATA_OFFSET + headerLength, i + DATA_OFFSET + headerLength + itemLength);
      var itemDataHeader := Slice(data, i + DATA_OFFSET, i + DATA_OFFSET + headerLength);
      assert RecordWindows(data, i, hasHeader) == Ok(Windows(stored.value, itemDataHeader, itemData));
      if |itemData| == 0 {
        assert decoded == Ok(None);
        return None;
      }
      var imageWidth := Dimension(forceWidth, itemDataHeader, 2);
      var imageHeight := Dimension(forceHeight, itemDataHeader, 4);
      if imageWidth == 0 || imageHeight == 0 {
        assert decoded == Ok(None);
        return None;
      }
      var pixels := UnpackPixels(itemData, imageWidth, imageHeight);
      assert decoded == Ok(Some(Picture(imageWidth, imageHeight, pixels)));
      totalImages := totalImages + 1;
      emitted := emitted + [Emitted(sectionId, curImage, Picture(imageWidth, imageHeight, pixels))];
      curImage := curImage + 1;
      return None;
    }

    /** `getDatDataFromIndices`. */
    method GetDatDataFromIndices(indices: seq<nat>, sectionId: SectionId, hasHeader: bool, forceWidth: nat, forceHeight: nat)
      returns (failure: Option<Error>)
      requires Valid()
      modifies this`totalImages, this`curImage, this`emitted
      ensures Valid()
      ensures Run(Snapshot(), failure) == RunRecords(data, indices, sectionId, SectionArgs(hasHeader, forceWidth, forceHeight), old(Snapshot()))
    {
      ghost var args := SectionArgs(hasHeader, forceWidth, forceHeight);
      for k := 0 to |indices|
        invariant Valid()
        invariant RunRecords(data, indices, sectionId, args, old(Snapshot())) == RunRecords(data, indices[k..], sectionId, args, Snapshot())
      {
        assert indices[k..][0] == indices[k] && indices[k..][1..] == indices[k + 1..];
        failure := ParseData(indices[k], sectionId, hasHeader, forceWidth, forceHeight);
        if failure.Some? {
          return;
        }
      }
      return None;
    }

    /** `parseSection`. */
    method ParseSection(id: SectionId, hasHeader: bool, width: nat, height: nat) returns (failure: Option<Error>)
      requires Valid()
      modifies this
      ensures Valid()
      ensures Run(Snapshot(), failure) == RunSection(index, data, id, SectionArgs(hasHeader, width, height), old(Snapshot()))
    {
      log := log + [LogLine(id, totalImages)];
      curImage := 0;
      var offset := ResolveSection(index, id);
      if offset.Err? {
        return Some(offset.error);
      }
      var headerOffset := HeaderOffsetIntoNdx(offset.value);
      var dataIndices := GetAllDatIndicesFromNdx(index, headerOffset);
      if dataIndices.Err? {
        return Some(dataIndices.error);
      }
      failure := GetDatDataFromIndices(dataIndices.value, id, hasHeader, width, height);
    }

    /** `drak24`: every section below 68 that is not ignored, in ascending
      order, with its arguments; a throw ends the run. */
    method Drak24() returns (failure: Option<Error>)
      requires Valid()
      modifies this
      ensures Valid()
      ensures Run(Snapshot(), failure) == RunDrak24From(index, data, 0, old(Snapshot()))
      ensures old(Snapshot()) == Initial ==>
        && DriverInvariant(Snapshot(), SECTION_COUNT)
        && LogsPrefix(Initial, Snapshot(), VisitedFrom(0))
        && (failure.None? ==> |log| == |VisitedFrom(0)|)
    {
      for i := 0 to SECTION_COUNT
        invariant Valid()
        invariant RunDrak24From(index, data, 0, old(Snapshot())) == RunDrak24From(index, data, i, Snapshot())
      {
        if Ignored(i) {
          continue;
        }
        var opts := Options(i);
        failure := ParseSection(Numbered(i), opts.header, opts.width, opts.height);
        if failure.Some? {
          Drak24Outcome(index, data);
          return;
        }
      }
      Drak24Outcome(index, data);
      return None;
    }
  }
}
