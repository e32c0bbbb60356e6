# traktor_tsi decoder — a Dafny model

This project models the binary decoding engine of `traktor_tsi`, a reader for
Traktor TSI controller-mapping blobs, together with the pure helpers around
it. The blob is a tree of frames, each a 4-byte ASCII tag and a big-endian
32-bit payload length. The decoder:

- walks this tree with a resynchronising pre-order scan;
- decodes every `DEVI` device and its `DDAT` device data;
- reads each `DDCB` container in two passes: the `DCBM` binding tables first, then the `CMAS` mapping lists;
- turns every `CMAI` entry into a `MappingRow` through guarded fixed-layout reads of its settings frame (`CMAD`);
- casts five settings words to "enum variant or raw integer".

Around the decoder sit the parser of binding names (`Ch07.CC.064`,
`Ch05.Note.C#3`) and the row validator.

Modules follow the source files:

| module | file | models |
|---|---|---|
| `Wrappers` | wrappers.dfy | `Option` and `Result`; a Python exception becomes an `Err` |
| `ByteIO` | beio.dfy | `BER` as the `Reader` datatype, UTF-16BE text, `read_frame_header` |
| `Frames` | frames.dfy | `looks_like_id`, `FrameWalker.walk`, `_count_children` |
| `Enums` | enums.dfy | the seven `IntEnum` value sets and the decoder's `_cast` |
| `Models` | models.dfy | `MappingRow` |
| `Parser` | parser.dfy | `TsiParser` and all of its private decoders |
| `ParserProofs` | parser_proofs.dfy | reference definitions of the decoder's loops, and the lemmas relating them |
| `Midi` | midi.dfy | `_note_name_to_number`, `parse_binding_name` |
| `Validators` | validators.dfy | `validate_rows` |

Conventions of the model:

- **Buffer and reader.** The buffer is a `seq<byte>` with `byte` = 0..255. A reader is a pure value (`data`, `off`, `end`), and every read returns the value together with the moved reader.
- **Failures.** A read that raises in Python returns `Err`. The error carries the cursor position at the moment of the raise, because the walker resumes one byte after exactly that position:
  - `ShortRead` is `struct.error`;
  - `FrameOverrun` is the `ValueError` of `read_frame_header`.
- **Floats** are opaque 32-bit words (`Float32(bits)`); the decoder does no float arithmetic.
- **Python ints** are unbounded `int`/`nat`. Every u32 the decoder reads lies in 0..2³²−1, and nothing is sign-converted.

## Model

| member | source | states |
|---|---|---|
| ByteIO.Reader.Seek | src/traktor_tsi/beio.py:17-21 | `seek` moves the offset anywhere with no bounds check; `remain` of the result is end − offset |
| ByteIO.Reader.U32 | src/traktor_tsi/beio.py:28-31 | succeeds iff 4 bytes of the buffer (not of the region) remain; the value is the word whose big-endian bytes are the next 4; the cursor advances exactly 4; otherwise `ShortRead` at the cursor |
| ByteIO.U32BytesValue | src/traktor_tsi/beio.py:28-31 | the big-endian bytes of a word recombine as b0·2²⁴+b1·2¹⁶+b2·2⁸+b3 to that word |
| ByteIO.U32RoundTrip | src/traktor_tsi/beio.py:28-31 | the value `u32` reads back from the big-endian encoding of a word is that word |
| ByteIO.Reader.F32 | src/traktor_tsi/beio.py:33-36 | same bounds and advance as `u32`; the result is the raw 32-bit word at the cursor |
| ByteIO.Reader.Bytes | src/traktor_tsi/beio.py:38-41 | `bytes(n)` advances by n even when the slice is shorter; the slice is exact when n bytes remain and strictly shorter past the buffer |
| ByteIO.Utf16RoundTrip | src/traktor_tsi/beio.py:48 | decoding the UTF-16BE encoding of any string (surrogate pairs for code points above U+FFFF) gives the string back |
| ByteIO.Reader.WStrPrefixed | src/traktor_tsi/beio.py:43-48 | succeeds iff the count word is readable, then consumes exactly 4+2n bytes for count n, even past the buffer end |
| ByteIO.WStrRoundTrip | src/traktor_tsi/beio.py:43-48 | reading a length-prefixed string written at the cursor returns that string and ends right after its encoding |
| ByteIO.AsciiDecodeOfAscii | src/traktor_tsi/beio.py:59 | `decode("ascii", errors="ignore")` keeps every byte below 128 and drops at least one otherwise |
| ByteIO.ReadFrameHeader | src/traktor_tsi/beio.py:51-66 | succeeds iff 8 buffer bytes are readable and start+8+size ≤ end (size 0 allowed); then payload start = start+8, payload end = payload start + size, and the cursor moved 8; an overrun fails after the cursor has moved 8 |
| Frames.IdByteIsInTagAlphabet | src/traktor_tsi/frames.py:9-13 | a byte passes the tag test iff it is one of 0-9, A-Z, `_`, a-z |
| Frames.LooksLikeId | src/traktor_tsi/frames.py:12-13 | `looks_like_id`: four bytes, each in the tag alphabet (characterised by Frames.IdByteIsInTagAlphabet, which ties the byte test to the alphabet written out as characters) |
| Frames.ScanStepIsStepAt | src/traktor_tsi/frames.py:36-48 | one step of the walk agrees with an independent statement in terms of `read_frame_header`: a header that reads and fits is found at its payload bounds, and a failed read resumes one byte after the failing cursor |
| Frames.ScanStep | src/traktor_tsi/frames.py:36-48 | every non-stopping step of the walk advances the position by 1 to 9 bytes, so the walk terminates |
| Frames.StepFound | src/traktor_tsi/frames.py:36-52 | a frame is yielded at a position iff 8 bytes fit the region, the tag is tag-like and the payload fits; its tag and payload bounds are those of the header |
| Frames.StepStop | src/traktor_tsi/frames.py:36 | the scan stops iff fewer than 8 bytes of the region remain |
| Frames.StepSkip | src/traktor_tsi/frames.py:37-48 | a non-tag window moves one byte on; a tag whose size word is past the buffer moves 5 on; a tag whose payload overruns the region moves 9 on |
| Frames.WalkSkipsJunk | src/traktor_tsi/frames.py:37-41 | bytes outside the tag alphabet are stepped over one at a time and yield nothing |
| Frames.WalkResumesNineAfterOverrun | src/traktor_tsi/frames.py:43-48 | a tag-like header whose payload overruns the region is not yielded, and scanning resumes at tag start + 9 |
| Frames.WalkNodesValid | src/traktor_tsi/frames.py:43-52 | every yielded node lies in the region, has a tag-like tag, a payload length equal to its size word, and a child count that fits its payload |
| Frames.WalkIsPreOrder | src/traktor_tsi/frames.py:55-61 | yield order is pre-order: starts strictly increase, nested nodes lie inside the parent's payload, and the next sibling starts at or after the parent's end |
| Frames.Walk | src/traktor_tsi/frames.py:31-61 | `FrameWalker.walk` as the list it yields (characterised by Frames.WalkNodesValid, Frames.WalkIsPreOrder, Frames.WalkOfFrames, Frames.WalkSkipsJunk and Frames.WalkResumesNineAfterOverrun) |
| Frames.CountChildren | src/traktor_tsi/frames.py:63-77 | `_count_children`, the shallow scan of a payload (characterised by Frames.CountChildrenFits and Frames.CountChildrenOfFrames) |
| Frames.CountChildrenFits | src/traktor_tsi/frames.py:63-77 | the shallow child count is at most payload length / 8 |
| Frames.CountChildrenOfFrames | src/traktor_tsi/frames.py:63-77 | over a payload that is exactly a run of well-formed frames, the child count is the number of frames |
| Frames.WalkOfFrames | src/traktor_tsi/frames.py:36-61 | over a run of well-formed frames, the walk yields each frame followed by the walk of its payload, frame after frame in byte order |
| Frames.JunkBetweenSiblings | src/traktor_tsi/frames.py:36-61 | two frames separated by non-tag bytes are both found, the junk yielding nothing |
| Enums.DeviceTargetLookup | src/traktor_tsi/enums.py:6-12 | exactly 0..4 are device targets, each looked up to the variant with that value |
| Enums.MidiEncoderModeLookup | src/traktor_tsi/enums.py:15-18 | exactly 0 and 1 are encoder modes |
| Enums.MidiEncoderModeRoundTrip | src/traktor_tsi/enums.py:15-18 | looking up the value of either encoder mode gives it back |
| Enums.MappingTargetDeckLookup | src/traktor_tsi/enums.py:21-42 | exactly the contiguous range −1..15 are deck scopes |
| Enums.MappingTargetDeckLookupValue | src/traktor_tsi/enums.py:21-42 | a looked-up deck scope has the raw value it was looked up with |
| Enums.InteractionModeLookup | src/traktor_tsi/enums.py:45-54 | exactly 1..8 are interaction modes, with DIRECT at 3; 0 and values above 8 are unknown |
| Enums.ControllerTypeLookup | src/traktor_tsi/enums.py:57-62 | exactly {0, 1, 2, 65535} are controller types |
| Enums.MappingResolutionLookup | src/traktor_tsi/enums.py:65-74 | exactly four distinct raw words are resolutions |
| Enums.ResolutionDefaultIsMin | src/traktor_tsi/enums.py:71-72 | DEFAULT is an alias: its word looks up to MIN, and distinct variants have distinct words |
| Enums.MappingTypeLookup | src/traktor_tsi/enums.py:77-79 | exactly {IN=0, OUT=1} are mapping types |
| Enums.DeviceTargetRoundTrip | src/traktor_tsi/enums.py:6-12 | looking up the value of any device target gives it back |
| Enums.MappingTargetDeckRoundTrip | src/traktor_tsi/enums.py:21-42 | looking up the value of any deck scope gives it back |
| Enums.InteractionModeRoundTrip | src/traktor_tsi/enums.py:45-54 | looking up the value of any interaction mode gives it back |
| Enums.ControllerTypeRoundTrip | src/traktor_tsi/enums.py:57-62 | looking up the value of any controller type gives it back |
| Enums.MappingResolutionRoundTrip | src/traktor_tsi/enums.py:65-74 | looking up the value of any (non-alias) resolution gives it back |
| Enums.MappingTypeRoundTrip | src/traktor_tsi/enums.py:77-79 | looking up the value of any mapping type gives it back |
| Enums.Cast | src/traktor_tsi/parser.py:217-223 | `_cast` maps None to None, a known value to its variant, and an unknown value to the raw int |
| Enums.CastKeepsValue | src/traktor_tsi/parser.py:217-223 | a cast value, read back as an integer, is the word it was cast from |
| Enums.DeckScopeFromWord | src/traktor_tsi/parser.py:217-229 | a deck scope cast from a u32 is never DEVICE_TARGET_DECK; 0xFFFFFFFF stays the raw 4294967295 |
| Models.NewRow | src/traktor_tsi/models.py:29-95 | a row is built from exactly the four required fields, and every other field is None |
| Parser.Parse | src/traktor_tsi/parser.py:27-35 | `parse`: the rows of every DEVI node of the walk, in walk order (characterised by ParserProofs.DevicesInOnlyDevi, ParserProofs.DevicesInAppend, ParserProofs.DevicesInOk and ParserProofs.ParseRowsDecoded) |
| Parser.ParseDevice | src/traktor_tsi/parser.py:39-51 | `_parse_device`: the name, then the children from the end of the name (characterised by ParserProofs.ParseDeviceRows and ParserProofs.TrailingBytesAbortDevice) |
| Parser.DeviceChildren | src/traktor_tsi/parser.py:45-51 | the child loop of `_parse_device` (characterised by ParserProofs.DeviceChildrenScan and ParserProofs.DeviceChildrenNamed) |
| Parser.ParseDeviceData | src/traktor_tsi/parser.py:53-66 | `_parse_device_data`, starting with device target 0 (characterised by ParserProofs.DeviceTargetIsLatestDdif) |
| Parser.DeviceDataChildren | src/traktor_tsi/parser.py:57-66 | the child loop of `_parse_device_data` (characterised by ParserProofs.DeviceDataScan and ParserProofs.DeviceDataNamed) |
| Parser.MappingsContainer | src/traktor_tsi/parser.py:70-119 | `_parse_mappings_container`: the child scan, then both passes (characterised by ParserProofs.BindingPassIsTable, ParserProofs.ContainerOrderIndependent, ParserProofs.CmasBeforeDcbm and ParserProofs.ContainerRows) |
| Parser.ReadMidiBindings | src/traktor_tsi/parser.py:122-136 | `_read_midi_bindings` (characterised by ParserProofs.BindingEntriesOver and ParserProofs.OverPrefersLater) |
| Parser.MappingsList | src/traktor_tsi/parser.py:138-155 | `_read_mappings_list` (characterised by ParserProofs.MappingEntriesAreHeaders, ParserProofs.EntryHeadersCount and ParserProofs.MappingsOverCount) |
| Parser.ReadMapping | src/traktor_tsi/parser.py:157-259 | `_read_mapping` (characterised by ParserProofs.ReadMappingHeadLayout, ParserProofs.ReadMappingOfHead and ParserProofs.ReadMappingRow) |
| Parser.DecodeSettings | src/traktor_tsi/parser.py:172-215 | the guarded settings reads of `_read_mapping` (characterised by ParserProofs.SettingsLayout, ParserProofs.SettingsTail, ParserProofs.SettingsInBuffer and ParserProofs.SettingsTooShort) |
| Parser.BuildRow | src/traktor_tsi/parser.py:225-259 | the `MappingRow(...)` call of `_read_mapping` (characterised by ParserProofs.BuildRowFacts, ParserProofs.MappingTypeChangesOnlyItself and ParserProofs.InteractionModeChangesOnlyItself) |
| Parser.GuardedWord | src/traktor_tsi/parser.py:174-175 | with fewer than 4 region bytes left it returns None without moving; otherwise it reads the word and moves 4, raising only past the buffer |
| Parser.GuardedComment | src/traktor_tsi/parser.py:180-198 | an unreadable count gives None without moving; otherwise the cursor moves past the whole prefixed string |
| ParserProofs.GuardedCommentText | src/traktor_tsi/parser.py:180-198 | the comment is present iff the prefixed read succeeds with a non-empty string, and is that string |
| ParserProofs.GuardedWordsFacts | src/traktor_tsi/parser.py:174-215 | a run of guarded reads yields its first m words from consecutive offsets, then only Nones, without moving further |
| ParserProofs.GuardedWordsOk | src/traktor_tsi/parser.py:174-175 | guarded reads never raise over a region inside the buffer |
| ParserProofs.GuardedWordsAt | src/traktor_tsi/parser.py:174-175 | every word a run of guarded reads returns is the u32 at its own 4-byte slot from the run's start, inside the region and the buffer |
| ParserProofs.SettingsTail | src/traktor_tsi/parser.py:198-215 | once all 12 head words are read, each present tail word (mod, LED and resolution words) is the u32 at its slot counted from the end of the comment, which is start+52+2·count when the comment's count word is in the buffer and start+48 otherwise |
| ParserProofs.SettingsLayout | src/traktor_tsi/parser.py:186-215 | the 12 words before the comment sit back to back from the settings start; when all 12 are present the 17 after it sit back to back from the end of the comment; once a numeric field is absent every later one is, across the comment |
| ParserProofs.SettingsInBuffer | src/traktor_tsi/parser.py:172-215 | a settings frame inside the buffer always decodes |
| ParserProofs.SettingsTooShort | src/traktor_tsi/parser.py:174-215 | a settings frame shorter than 4 bytes yields no numeric field |
| ParserProofs.ReadMappingHeadLayout | src/traktor_tsi/parser.py:166-171 | the record head decodes iff 20 buffer bytes are readable and the settings payload fits the entry; the three words come from offsets 0, 4, 8 and the settings tag is never checked |
| ParserProofs.ReadMappingOfHead | src/traktor_tsi/parser.py:157-259 | a record decodes iff its settings do, and is the row built from the head words and the decoded settings |
| ParserProofs.BuildRowFacts | src/traktor_tsi/parser.py:225-259 | the row has the required fields given, `midi_note` is the binding of its id or None for an unknown id, every cast field (mapping type, controller type, interaction mode, deck scope, resolution) is present iff its word is and reads back as that word, and no field the decoder never sets is set |
| ParserProofs.MappingTypeChangesOnlyItself | src/traktor_tsi/parser.py:206-259 | the LED and resolution fields do not depend on the mapping type |
| ParserProofs.InteractionModeChangesOnlyItself | src/traktor_tsi/parser.py:197-246 | `set_value_to` and every other field do not depend on the interaction mode |
| ParserProofs.BindingEntriesOver | src/traktor_tsi/parser.py:122-136 | decoding a binding list onto a table equals overlaying the list's own table on it |
| ParserProofs.BindingListIsReadMidiBindings | src/traktor_tsi/parser.py:96-136 | the inline DCBM loop of the container equals `_read_midi_bindings` overlaid on the table so far |
| ParserProofs.OverPrefersLater | src/traktor_tsi/parser.py:106 | a later binding for an id replaces an earlier one; other ids keep theirs |
| ParserProofs.BindingPassIsTable | src/traktor_tsi/parser.py:91-107 | pass A builds the overlay, in child order, of every DCBM list's table |
| ParserProofs.BindingPassOnlyDcbm | src/traktor_tsi/parser.py:93-94 | pass A depends only on the DCBM children, in their order |
| ParserProofs.MappingPassOnlyCmas | src/traktor_tsi/parser.py:111-117 | pass B depends only on the CMAS children, in their order |
| ParserProofs.ContainerOrderIndependent | src/traktor_tsi/parser.py:84-119 | two containers with the same DCBM and the same CMAS children in the same order decode alike, however the two kinds interleave |
| ParserProofs.CmasBeforeDcbm | src/traktor_tsi/parser.py:78-81 | a CMAS placed before its DCBM decodes as if it came after |
| ParserProofs.EntryHeadersCount | src/traktor_tsi/parser.py:147-155 | a mapping list reads exactly `count` entry headers |
| ParserProofs.MappingEntriesAreHeaders | src/traktor_tsi/parser.py:147-155 | a mapping list's rows are those of its entries in order; an unreadable entry header fails the list |
| ParserProofs.MappingsOverCount | src/traktor_tsi/parser.py:150-153 | one row per CMAI entry, so rows ≤ count |
| ParserProofs.DeviceDataScan | src/traktor_tsi/parser.py:58-65 | the device-data loop equals its loop over the scanned children, and fails when the scan fails |
| ParserProofs.DeviceTargetIsLatestDdif | src/traktor_tsi/parser.py:53-66 | each DDCB is decoded with the word of the latest DDIF before it, or 0; other children contribute nothing |
| ParserProofs.ContainerRows | src/traktor_tsi/parser.py:70-119 | every row of a container carries the device name and target it was decoded under |
| ParserProofs.ParseDeviceRows | src/traktor_tsi/parser.py:39-51 | all rows of one device carry the same device name |
| ParserProofs.DevicesInOnlyDevi | src/traktor_tsi/parser.py:32-34 | `parse` decodes the DEVI nodes of the walk and nothing else |
| ParserProofs.DevicesInAppend | src/traktor_tsi/parser.py:32-35 | the rows of a walk are the concatenation, in walk order, of each part's rows |
| ParserProofs.DevicesInOk | src/traktor_tsi/parser.py:32-35 | `parse` succeeds iff every DEVI node decodes |
| ParserProofs.ParseRowsDecoded | src/traktor_tsi/parser.py:27-259 | every row `parse` returns has a mapping type, no deck scope of −1, and none of the fields the decoder never sets |
| ParserProofs.TrailingBytesAbort | src/traktor_tsi/parser.py:46-87 | 1–7 bytes trailing the last child of a region make the child scan fail |
| ParserProofs.TrailingBytesAbortDecoders | src/traktor_tsi/parser.py:46-87 | those trailing bytes fail the device, device-data and container child loops |
| ParserProofs.TrailingBytesAbortDevice | src/traktor_tsi/parser.py:39-51 | trailing bytes after the last child of a device, counted from the end of its name, fail the device decode |
| ParserProofs.TrailingBytesAbortParse | src/traktor_tsi/parser.py:27-51 | such trailing bytes in any DEVI node the walker finds fail the whole `parse` |
| ParserProofs.ParseEmpty | src/traktor_tsi/parser.py:27-35 | an empty blob gives no rows |
| Midi.SplitJoin | src/traktor_tsi/midi.py:49 | splitting on the separator recovers the joined segments |
| Midi.StripSpec | src/traktor_tsi/midi.py:59-62 | `strip` removes exactly the leading and trailing whitespace |
| Midi.StripIdempotent | src/traktor_tsi/midi.py:59-62 | stripping twice is stripping once |
| Midi.Upper | src/traktor_tsi/midi.py:59 | `upper` maps each character to its upper case, keeping the length |
| Midi.ParseInt | src/traktor_tsi/midi.py:55-84 | `int(text, base)` succeeds iff the stripped text is an optionally signed run of ASCII digits of the base |
| Midi.ParseShowNat | src/traktor_tsi/midi.py:72-81 | parsing the printed digits of a number gives it back, in base 10 and 16 |
| Midi.ParseShowInt | src/traktor_tsi/midi.py:55 | parsing a printed signed integer gives it back |
| Midi.SemitoneIsTable | src/traktor_tsi/midi.py:10-18 | the semitone lookup is the table, with sharps and flats |
| Midi.NoteNameToNumber | src/traktor_tsi/midi.py:20-35 | `_note_name_to_number`, with `$` matching before one final newline (characterised by Midi.NoteNameFormula, Midi.NoteNameMissingKeys, Midi.NoteNameRoundTrip and Midi.NoteNameExamples) |
| Midi.NoteNameFormula | src/traktor_tsi/midi.py:20-35 | a note name converts to (octave+1)·12 + semitone |
| Midi.NoteNameMissingKeys | src/traktor_tsi/midi.py:10-33 | E#, B#, Cb and Fb are not converted |
| Midi.NoteNameRoundTrip | src/traktor_tsi/midi.py:20-35 | the sharp-spelled name of any MIDI number converts back to it |
| Midi.NoteNameExamples | src/traktor_tsi/midi.py:20-41 | C-1 → 0, G-1 → 7, C#3 → 49 |
| Midi.NoteTail | src/traktor_tsi/midi.py:64-77 | a NOTE tail is a musical name (number and name), else decimal, else hex, else (None, tail) |
| Midi.CcTail | src/traktor_tsi/midi.py:79-86 | any other tail is decimal, else hex, else (None, tail) |
| Midi.FromSegments | src/traktor_tsi/midi.py:53-62 | the channel is the integer after "Ch" or None; the event is NOTE iff the stripped upper-cased segment is NOTE, otherwise CC |
| Midi.ParseBindingName | src/traktor_tsi/midi.py:37-62 | None, or a name not starting with "Ch", or fewer than 3 segments gives all None; otherwise the first three segments decide |
| Midi.ExtraSegmentsIgnored | src/traktor_tsi/midi.py:49-62 | segments after the third are ignored |
| Midi.CcNameRoundTrip | src/traktor_tsi/midi.py:37-86 | `Ch<c>.CC.<n>` parses back to (c, CC, n, None) |
| Midi.NoteNameBindingRoundTrip | src/traktor_tsi/midi.py:37-77 | `Ch<c>.Note.<name of n>` parses back to (c, NOTE, n, name) |
| Midi.CcExample | src/traktor_tsi/midi.py:40 | "Ch07.CC.064" → (7, CC, 64, None) |
| Midi.NoteExample | src/traktor_tsi/midi.py:41 | "Ch05.Note.C#3" → (5, NOTE, 49, "C#3") |
| Midi.HexNoteExample | src/traktor_tsi/midi.py:42 | "Ch01.Note.0B" → (1, NOTE, 11, None) |
| Validators.RowIssues | src/traktor_tsi/validators.py:15-39 | a row gives at most 4 issues, all for its index, in check order |
| Validators.RowIssuesExactly | src/traktor_tsi/validators.py:18-37 | each check reports iff its condition holds, with its severity and the offending value |
| Validators.AllOnesDeckIsUnusual | src/traktor_tsi/validators.py:33-37 | the raw 4294967295 deck scope the decoder keeps is warned about |
| Validators.BlankRowIsClean | src/traktor_tsi/validators.py:19-37 | a row with every optional field None raises nothing |
| Validators.ValidateRows | src/traktor_tsi/validators.py:12-41 | issues are ordered by row, then by check, at most 4 per row, and each is an issue of its row |
| Validators.ValidateRowsComplete | src/traktor_tsi/validators.py:12-41 | every issue of every row is reported |
| Validators.BlankRowsAreClean | src/traktor_tsi/validators.py:12-41 | rows with every optional field None give no issues; empty input gives none |

## Left out

- XML extraction, base64, file I/O and the command-line tool (`xml.py`, `cli.py`): the blob is taken as given bytes.
- Float semantics: every `f32` is kept as its raw 32-bit word, since the decoder does no float arithmetic.
- UTF-16BE with `errors="ignore"` is modelled concretely: unpaired surrogates and an odd trailing byte are dropped. Only the round trip and the empty-versus-non-empty test of the comment are relied on.
- The `BER` docstring speaks of UTF-16LE, but the code decodes big-endian; the model follows the code.
- Midi.ParseInt: Python's `int()` also accepts underscores between digits, non-ASCII digits and a `0x` prefix in base 16; the model accepts only ASCII digit runs with an optional sign and surrounding whitespace.
- Midi.Upper: only ASCII letters are upper-cased; other characters are kept.
- Issue messages are not modelled: an issue carries its severity, row index and offending value, not the formatted text.
- Generator laziness: `walk` is modelled as the finite list it produces.
- The `cast_enums` flag of `TsiParser` is never read, so it is not modelled.
- Mapping and binding lists read exactly `count` entries and ignore any bytes after them, so trailing bytes abort only the device, device-data and container loops (ParserProofs.TrailingBytesAbortDecoders), and through them `parse` (ParserProofs.TrailingBytesAbortParse).
- ParserProofs.ReadMappingHeadLayout, ParserProofs.ReadMappingOfHead and ParserProofs.SettingsLayout together state the record layout; no single lemma states the whole record from the raw bytes.
- `BER.u8` is never called by the decoder and is not modelled.
