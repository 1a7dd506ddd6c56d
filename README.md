# drakkar-parser: a Dafny model of the `drak24` image extractor

`extract.js` takes the sprite archive of the game as two buffers. The
index (`drak24.ndx`) holds one table of record offsets per section. The
data file (`drak24.dat`) holds the records themselves. Each record has a
stored length, an optional 14-byte header that gives the width (byte 2) and
the height (byte 4), and a payload of 3-byte pixel groups. The script
decodes every record of every section it does not ignore into an RGBA
buffer, hands that buffer to the PNG encoder as
`images/<section>-<counter>.png`, and keeps two counters: `totalImages` over
the whole run and `curImage` within the current section.

The model has four modules.

- `Buffers` captures the Node.js `Buffer` behaviour the script depends on:
  - `readUInt32LE` is bounds-checked and throws a RangeError;
  - `slice` treats a negative bound as counted from the end and clamps both bounds;
  - `indexOf` searches for a byte pattern;
  - indexing past the end reads `undefined`, which a `Uint8Array` stores as 0.
- `Ndx` covers `getOffsetFromHeader`, `headerOffsetIntoNdx` and
  `getAllDatIndicesFromNdx`, which reads a table of at most 449 words and
  stops at the first zero.
- `Record` covers `parseData`'s decoding:
  - the two windows cut from the record;
  - the choice of width and height;
  - the skip conditions;
  - the unpacking loop, as an in-place method over an `array<uint8>`, proved
    equal to the specification function `Pixels`.
- `Driver` covers the program state and the loop:
  - the tables `ignoreSections` and `sectionArgs`, with their defaults;
  - `parseSection`;
  - the `drak24` loop, as specification functions and as the class
    `Extractor`, whose methods update `totalImages`, `curImage`, the list of
    emitted images and the log on entry to each section. Each method is
    proved equal to the matching specification function.

A read out of range throws, and nothing in the script catches it, so the
throw ends the whole run. Every out-of-range read yields
`Err(OutOfRange(offset))`, and the loop stops there with the state reached
so far.

## Model

| member | source | states |
|---|---|---|
| Buffers.ReadUInt32LE | extract.js:26 | The read succeeds exactly when the four bytes at the offset lie in the buffer. Otherwise it fails with that offset. A value read is below 2^32. |
| Buffers.ReadEncoded | extract.js:38 | Reading back an encoded little-endian word gives the word, at any position in any buffer. |
| Buffers.EncodeRead | extract.js:38 | Encoding a word that was read gives back the four bytes it was read from. |
| Buffers.Slice | extract.js:64 | For non-negative bounds, the slice is the part of `[start, end)` that exists, empty when `start >= end`. For in-range bounds it equals the sequence slice. |
| Buffers.Get | extract.js:94-96 | An index inside the buffer gives its byte; any other index gives `undefined`. |
| Buffers.IndexOf | extract.js:25 | The result is -1 exactly when the pattern occurs nowhere. Otherwise it is the first position where the pattern occurs. |
| Ndx.GetOffsetFromHeader | extract.js:24-27 | A missing tag fails with a read at -5. A tag first found at `p` gives the little-endian word at `p-4`, or fails when `p < 4`. |
| Ndx.ResolveSection | extract.js:126 | A section number is used as is; a tag goes through `GetOffsetFromHeader`. |
| Ndx.HeaderOffsetIntoNdx | extract.js:29-31 | Section `k`'s table begins at `0x810 + k * 0xE0C`. |
| Ndx.TablesDisjoint | extract.js:29-31 | The 449 words of a section's table end before the table of any later section begins. |
| Ndx.OffsetListFromCases | extract.js:37-44 | From slot `k`, the scan yields `l` exactly when `l` is the run of non-zero words up to the first zero word or the 449-slot cap. |
| Ndx.OffsetListSpec | extract.js:34-45 | The scan of a whole table yields `l` exactly when `l` has at most 449 words, all non-zero and in table order, followed by a zero word unless the cap is reached. |
| Ndx.TableFailure | extract.js:38 | The scan throws exactly when some word before the first zero, within the 449 slots, lies outside the index. |
| Ndx.TableFailureError | extract.js:37-38 | A failing scan throws at the first unreadable word `k` before a zero, with the offset `offset + 4k` of that read. |
| Ndx.GetAllDatIndicesFromNdx | extract.js:34-45 | The loop that pushes words and returns at the first zero gives the list of `OffsetList`, or the error of the first unreadable word. |
| Ndx.ScenarioStopsAtZero | extract.js:39 | A table whose first three words are 5, 10, 0 yields [5, 10], whatever words follow. |
| Ndx.ScenarioTagLookup | extract.js:24-27 | A tag whose first occurrence is preceded by the word 0x100 resolves to 256. |
| Record.HeaderLength | extract.js:56 | The header is 14 bytes when the record has one, else 0. |
| Record.RecordWindows | extract.js:56-68 | The record is decoded exactly when its stored length at `i+4` can be read, else it fails with offset `i+4`. The stored length is the LE word at `i+4`. |
| Record.RecordWindowsSlices | extract.js:59-68 | The header is the data at `[i+12, i+12+headerLength)` and the payload the data at `[i+12+headerLength, i+12+stored)`, both cut off at the end of the data. |
| Record.HeaderDimension | extract.js:71-72 | A dimension is the forced value when non-zero, else header byte 2 or 4 when it exists, else nothing. |
| Record.StorePixel | extract.js:98-106 | Exactly the four bytes `pos..pos+3` that lie in the buffer receive the pixel; every other byte is unchanged. |
| Record.UnpackStep | extract.js:91-108 | Writing pixel `n` into a buffer holding pixels `0..n-1` (and zeros after) makes it hold pixels `0..n`. |
| Record.UnpackGroup | extract.js:92-107 | One turn of the loop extends the decoded prefix by the pixel of group `3n` (the key color giving all zeros). |
| Record.UnpackedAll | extract.js:91-109 | Once the groups reach the end of the payload, the buffer is the whole decoded image. |
| Record.UnpackPixels | extract.js:76-109 | The in-place loop over the zeroed `width*height*4` buffer produces exactly `Pixels(payload, width, height)`. |
| Record.DecodeRecord | extract.js:53-74 | The record fails exactly when its length word is out of range, with offset `i+4`. A decoded picture has positive dimensions, `width*height*4` bytes, and the forced sizes when given. |
| Record.DecodeRecordSkips | extract.js:64-74 | Once the length is readable, the record is skipped exactly when the payload window in the data is empty or a chosen dimension is 0. |
| Record.DecodeRecordPicture | extract.js:64-81 | A record not skipped yields the chosen width and height and the pixels of the payload window `[i+12+headerLength, i+12+stored)`, cut off at the end of the data. |
| Record.NoHeaderNoForcedSizeSkips | extract.js:71-74 | Without a header and without forced sizes a record never yields a picture. |
| Record.ScenarioPayloadLength | extract.js:56-64 | A stored length of 20 with a header leaves a 6-byte payload when the data extends at least 32 bytes past `i`. |
| Record.PixelRules | extract.js:83-107 | For pixel `k`: pixel 0 is 0,0,0,0. A pixel past the payload is 0,0,0,0, and so is the key color 1,1,1. Otherwise the pixel is (byte 2, byte 1, byte 0, 255) of group `3k`, with a byte missing from a trailing partial group stored as 0. |
| Record.LeadingGroupIgnored | extract.js:88-96 | Payload bytes 0..2 are never read: payloads differing only there decode alike. |
| Driver.IgnoredIsListed | extract.js:138-197 | `_.includes(ignoreSections, i)` holds exactly for 0–5, 8, 9, 11–23, 25 and 32–67. |
| Driver.Options | extract.js:200-241 | A section with an entry in `sectionArgs` gets it. Any other section gets `parseData`'s defaults: a header and no forced size. |
| Driver.ProcessedSectionsForced | extract.js:200-241 | Every section the loop does not ignore is decoded with a header and forced to 64 by 64. |
| Driver.ParseDataAppends | extract.js:111-116 | A record emits at most one image, of its section, numbered with `curImage`, and both counters grow with it. A skipped record leaves the state unchanged. A decoded picture `p` is appended as exactly `Emitted(section, curImage, p)`. |
| Driver.RunRecordsAppends | extract.js:48-50 | A section's records append images in order, numbered consecutively. Both counters grow by the number appended. |
| Driver.RunSectionAppends | extract.js:122-131 | `parseSection` logs one line, resets `curImage`, then numbers its images from 0. |
| Driver.VisitedFromSound | extract.js:239-243 | Every section passed to `parseSection` is a number below 68 that is not ignored. |
| Driver.VisitedFromComplete | extract.js:239-243 | Every section below 68 that is not ignored is passed to `parseSection`. |
| Driver.VisitedFromAscending | extract.js:239 | Sections are passed in strictly ascending order, each once. |
| Driver.TurnsOfDrak24Behave | extract.js:240-242 | An ignored section changes nothing. A visited one logs a line and appends 64 by 64 images of that section. |
| Driver.DriverStep | extract.js:111-131 | One visited section keeps the loop invariant: totals match, sections ascend, counters run consecutively, file names are distinct. |
| Driver.LoopKeeps | extract.js:239-243 | The invariant holds at the end of the loop, whether it finishes or a throw stops it. |
| Driver.LoopLog | extract.js:123 | The log names the visited sections in order. It names all of them when the loop finishes, and a non-empty prefix when a throw stops it. |
| Driver.Drak24Outcome | extract.js:111-243 | After a run, `totalImages` is the number of emitted images. All are 64 by 64 and come from non-ignored sections, in ascending order. Within a section they are numbered 0, 1, 2, ..., and no two share a file name. The log names a prefix of the visited sections, all of them on success. |
| Driver.Section66Ignored | extract.js:195 | Section 66 (discs) is never parsed and names no image. |
| Driver.Extractor.constructor | extract.js:21-22 | Both counters start at 0, with nothing emitted or logged. |
| Driver.Extractor.ParseData | extract.js:53-119 | The fields end up as `ParseDataStep` gives them, or unchanged with the error when that throws. |
| Driver.Extractor.GetDatDataFromIndices | extract.js:48-50 | The records are decoded in list order, as `RunRecords`. |
| Driver.Extractor.ParseSection | extract.js:122-131 | The log line, the reset of `curImage`, the table lookup and the decoding are as `RunSection` gives them. |
| Driver.Extractor.Drak24 | extract.js:134-243 | The loop over sections 0..67 leaves the state `RunDrak24From` gives. Started from the initial state of a fresh `Extractor`, the state it leaves satisfies the run invariant of `Drak24Outcome`, and its log names a prefix of the visited sections, all of them on success. |

## Left out

- Reading `drak24.ndx` and `drak24.dat` from disk, and emptying the `images` directory (lines 7-18). The two files are the constructor's arguments.
- PNG encoding and the file writes (`pack`, `pipe`, `createWriteStream`, lines 113-116). An emitted image is recorded by its section, its counter and its RGBA bytes. The writes are asynchronous, so the model does not say which files reach the disk before a throw ends the process.
- The final `console.log('done')` (line 274). The log line `parseSection` prints on entry is modelled as a `LogLine`.
- The commented-out calls with tags and the ImageMagick note (lines 247-269, 276-279): they are not code. Lookup by tag is still modelled, through `ResolveSection`.
- A tag is given as its bytes. In the script a tag is a JavaScript string, which `indexOf` encodes as UTF-8 before searching, so the bytes here are that encoding. For the ASCII tags the script names, the two are the same.
- The PNG constructor's `data` is taken as zero-filled, as `Buffer.alloc` gives it. A pixel that no group reaches is therefore 0,0,0,0. A buffer allocated uninitialised would leave those bytes unspecified.
- The `type` parameter: only `'drak24'` exists, so the index and data buffers are fixed fields.
- JavaScript numbers: every quantity here is an integer well below 2^53, so unbounded integers describe them exactly. The `| 0` that pngjs applies to the width and height does not matter, because dimensions come from a byte or from the constant 64.
- A header byte that does not exist reads as `undefined` in the script. The model gives it as 0, since both are falsy and skip the record alike.
- Membership in `ignoreSections`: the loop tests the range predicate `Ignored` rather than membership in the list. `IgnoredIsListed` proves the two agree.
- Write order of the key color: the key-color branch of the script assigns the four bytes in a chained expression, from `pos+3` down to `pos`. The model assigns them upwards. The resulting buffer is the same.
- The lodash helpers (`_.each`, `_.includes`, `_.isNumber`). They are modelled by a loop over the list, the range predicate and the `SectionId` datatype. `_.each` could stop early, but only if `parseData` returned `false`, which it never does.
