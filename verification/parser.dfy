/** The record decoder (`parser.py`): DEVI frames found by the walker are
    decoded as a device name and DDAT children; each DDAT holds DDIF
    children that set the device target and DDCB containers whose DCBM
    binding lists and CMAS mapping lists become rows.

    Every read that raises in Python is an `Err` here, and nothing catches
    it except the settings comment read: a fault anywhere aborts the whole
    parse. A loop `while r.tell() < r.end` is a function recursive in the
    cursor, and a `for _ in range(count)` loop one recursive in `count`.
 */
module Parser {
  import opened Wrappers
  import opened ByteIO
  import opened Frames
  import opened Enums
  import opened Models

  /** Binding id to binding name, as built from the DCBM lists. */
  type Bindings = map<nat, string>

  // ---------------------------------------------------------------------------
  // Child scans

  /** The first pass over a DDCB payload: every child header in turn, each
      read at the end of the previous child's payload, until the cursor
      reaches the region end. A header that does not fit raises. */
  function ChildHeaders(data: seq<byte>, pos: nat, end: nat): Outcome<seq<FrameHeader>>
    decreases end - pos
  {
    if pos >= end then Ok([])
    else
      var p :- ReadFrameHeader(Reader(data, pos, end));
      var rest :- ChildHeaders(data, p.0.payloadEnd, end);
      Ok([p.0] + rest)
  }

  // ---------------------------------------------------------------------------
  // Settings (CMAD)

  /** The numeric settings: twelve words before the comment and seventeen
      after it, each None when it was not read, then the comment. */
  datatype Settings = Settings(head: seq<Option<nat>>, comment: Option<string>, tail: seq<Option<nat>>)

  /** `_u32()` and `_f32()`: a word when 4 bytes of the settings region are
      left, else None without moving. The region check does not protect the
      buffer read, which still raises past the end of the buffer. */
  function GuardedWord(r: Reader): (res: Outcome<(Option<nat>, Reader)>)
    ensures r.off + 4 > r.end ==> res == Ok((None, r))
    ensures r.off + 4 <= r.end && r.off + 4 <= |r.data| ==> res == Ok((Some(U32At(r.data, r.off)), r.Seek(r.off + 4)))
    ensures r.off + 4 <= r.end && r.off + 4 > |r.data| ==> res == Err(ShortRead(r.off))
  {
    if r.off + 4 <= r.end then
      var p :- r.U32();
      U32RoundTrip(r.data, r.off, p.0);
      Ok((Some(p.0), p.1))
    else Ok((None, r))
  }

  /** `k` guarded reads in a row. */
  function GuardedWords(r: Reader, k: nat): Outcome<(seq<Option<nat>>, Reader)>
    decreases k
  {
    if k == 0 then Ok(([], r))
    else
      var w :- GuardedWord(r);
      var rest :- GuardedWords(w.1, k - 1);
      Ok(([w.0] + rest.0, rest.1))
  }

  /** `_wstr() or None`: the prefixed string, None when it is empty, and None
      without moving when its count cannot be read. */
  function GuardedComment(r: Reader): (res: (Option<string>, Reader))
    ensures r.off + 4 > |r.data| ==> res == (None, r)
    ensures r.off + 4 <= |r.data| ==> res.1 == r.Seek(r.off + 4 + 2 * U32At(r.data, r.off))
  {
    match r.WStrPrefixed()
    case Err(_) => (None, r)
    case Ok((s, r2)) => (if s == [] then None else Some(s), r2)
  }

  const HEAD_WORDS: nat := 12
  const TAIL_WORDS: nat := 17

  /** The fixed settings layout read over `[start, end)`. */
  function DecodeSettings(data: seq<byte>, start: nat, end: nat): Outcome<Settings>
  {
    var h :- GuardedWords(Reader(data, start, end), HEAD_WORDS);
    var c := GuardedComment(h.1);
    var t :- GuardedWords(c.1, TAIL_WORDS);
    Ok(Settings(h.0, c.0, t.0))
  }

  // Positions of the named settings words; the others are read and dropped.
  const CONTROLLER_TYPE: nat := 1
  const INTERACTION_MODE: nat := 2
  const DECK_SCOPE: nat := 3
  const AUTO_REPEAT: nat := 4
  const INVERT: nat := 5
  const SOFT_TAKEOVER: nat := 6
  const ROTARY_SENSITIVITY: nat := 7
  const ROTARY_ACCELERATION: nat := 8
  const SET_VALUE_TO: nat := 11
  const MOD1_ID: nat := 0
  const MOD1_VAL: nat := 2
  const MOD2_ID: nat := 3
  const MOD2_VAL: nat := 5
  const LED_MIN_CONTROLLER: nat := 7
  const LED_MAX_CONTROLLER: nat := 9
  const LED_MIN_MIDI: nat := 10
  const LED_MAX_MIDI: nat := 11
  const LED_INVERT: nat := 12
  const LED_BLEND: nat := 13
  const RESOLUTION: nat := 15

  /** Word `i` of a settings group; None past its end. */
  function Word(ws: seq<Option<nat>>, i: nat): Option<nat> {
    if i < |ws| then ws[i] else None
  }

  function AsFloat(w: Option<nat>): Option<Float32> {
    match w
    case None => None
    case Some(v) => Some(Float32(v))
  }

  function AsInt(w: Option<nat>): Option<int> {
    match w
    case None => None
    case Some(v) => Some(v)
  }

  // ---------------------------------------------------------------------------
  // Mapping records (CMAI)

  /** The `MappingRow(...)` call at the end of `_read_mapping`. */
  function BuildRow(name: string, target: nat, bindingId: nat, mappingType: nat, controlId: nat,
                    bindings: Bindings, s: Settings): Row
  {
    NewRow(name, target, controlId, bindingId).(
      mappingType := Cast(MappingTypeLookup, Some(mappingType)),
      midiNote := if bindingId in bindings then Some(bindings[bindingId]) else None,
      controllerType := Cast(ControllerTypeLookup, AsInt(Word(s.head, CONTROLLER_TYPE))),
      interactionMode := Cast(InteractionModeLookup, AsInt(Word(s.head, INTERACTION_MODE))),
      deckScope := Cast(MappingTargetDeckLookup, AsInt(Word(s.head, DECK_SCOPE))),
      autoRepeat := AsInt(Word(s.head, AUTO_REPEAT)),
      invert := AsInt(Word(s.head, INVERT)),
      softTakeover := AsInt(Word(s.head, SOFT_TAKEOVER)),
      rotarySensitivity := AsFloat(Word(s.head, ROTARY_SENSITIVITY)),
      rotaryAcceleration := AsFloat(Word(s.head, ROTARY_ACCELERATION)),
      setValueTo := AsFloat(Word(s.head, SET_VALUE_TO)),
      mod1Id := AsInt(Word(s.tail, MOD1_ID)),
      mod1Val := AsInt(Word(s.tail, MOD1_VAL)),
      mod2Id := AsInt(Word(s.tail, MOD2_ID)),
      mod2Val := AsInt(Word(s.tail, MOD2_VAL)),
      ledMinController := AsFloat(Word(s.tail, LED_MIN_CONTROLLER)),
      ledMaxController := AsFloat(Word(s.tail, LED_MAX_CONTROLLER)),
      ledMinMidi := AsInt(Word(s.tail, LED_MIN_MIDI)),
      ledMaxMidi := AsInt(Word(s.tail, LED_MAX_MIDI)),
      ledInvert := AsInt(Word(s.tail, LED_INVERT)),
      ledBlend := AsInt(Word(s.tail, LED_BLEND)),
      resolutionRaw := Cast(MappingResolutionLookup, AsInt(Word(s.tail, RESOLUTION))),
      comment := s.comment
    )
  }

  /** The fixed part of a mapping record: binding id, mapping type and
      control id words, then one frame header (whatever its tag) whose
      payload holds the settings. */
  datatype MappingHead = MappingHead(bindingId: nat, mappingType: nat, controlId: nat, settings: FrameHeader)

  function ReadMappingHead(data: seq<byte>, start: nat, end: nat): Outcome<MappingHead>
  {
    var id :- Reader(data, start, end).U32();
    var mt :- id.1.U32();
    var ctl :- mt.1.U32();
    var hdr :- ReadFrameHeader(ctl.1);
    Ok(MappingHead(id.0, mt.0, ctl.0, hdr.0))
  }

  /** `_read_mapping`: the fixed part, then the settings, into one row. */
  function ReadMapping(data: seq<byte>, start: nat, end: nat, name: string, target: nat,
                       bindings: Bindings): Outcome<Row>
  {
    var hd :- ReadMappingHead(data, start, end);
    var s :- DecodeSettings(data, hd.settings.payloadStart, hd.settings.payloadEnd);
    Ok(BuildRow(name, target, hd.bindingId, hd.mappingType, hd.controlId, bindings, s))
  }

  // ---------------------------------------------------------------------------
  // Mapping lists (CMAS)

  /** The rows one list entry contributes: a row for a CMAI entry, nothing
      for any other tag. */
  function EntryRows(data: seq<byte>, h: FrameHeader, name: string, target: nat,
                     bindings: Bindings): Outcome<seq<Row>>
  {
    if h.tag == "CMAI" then
      var row :- ReadMapping(data, h.payloadStart, h.payloadEnd, name, target, bindings);
      Ok([row])
    else Ok([])
  }

  /** The `for _ in range(count)` loop of `_read_mappings_list`: exactly
      `count` entry headers, each after the previous entry's payload. */
  function MappingEntries(data: seq<byte>, pos: nat, end: nat, count: nat, name: string, target: nat,
                          bindings: Bindings): Outcome<seq<Row>>
    decreases count
  {
    if count == 0 then Ok([])
    else
      var p :- ReadFrameHeader(Reader(data, pos, end));
      var here :- EntryRows(data, p.0, name, target, bindings);
      var rest :- MappingEntries(data, p.0.payloadEnd, end, count - 1, name, target, bindings);
      Ok(here + rest)
  }

  /** `_read_mappings_list`: a count word, then that many entries. */
  function MappingsList(data: seq<byte>, start: nat, end: nat, name: string, target: nat,
                        bindings: Bindings): Outcome<seq<Row>>
  {
    var c :- Reader(data, start, end).U32();
    MappingEntries(data, start + 4, end, c.0, name, target, bindings)
  }

  // ---------------------------------------------------------------------------
  // Binding lists (DCBM)

  /** One binding entry: a DCBM entry yields its id word and the prefixed
      name after it; any other entry yields nothing. */
  function EntryBinding(data: seq<byte>, h: FrameHeader): Outcome<Option<(nat, string)>>
  {
    if h.tag != "DCBM" then Ok(None)
    else
      var id :- Reader(data, h.payloadStart, h.payloadEnd).U32();
      var text :- id.1.WStrPrefixed();
      Ok(Some((id.0, text.0)))
  }

  /** Adds a binding entry to the table, overriding an earlier one with the same id. */
  function Bind(acc: Bindings, e: Option<(nat, string)>): Bindings {
    match e
    case None => acc
    case Some((id, text)) => acc[id := text]
  }

  /** The `for _ in range(count)` loop over DCBM entries: an entry tagged
      DCBM adds its id and name, overriding an earlier entry with the same
      id; any other entry is skipped. */
  function BindingEntries(data: seq<byte>, pos: nat, end: nat, count: nat, acc: Bindings): Outcome<Bindings>
    decreases count
  {
    if count == 0 then Ok(acc)
    else
      var p :- ReadFrameHeader(Reader(data, pos, end));
      var e :- EntryBinding(data, p.0);
      BindingEntries(data, p.0.payloadEnd, end, count - 1, Bind(acc, e))
  }

  /** `_read_midi_bindings`: a count word, then that many entries, into a
      fresh table. */
  function ReadMidiBindings(data: seq<byte>, start: nat, end: nat): Outcome<Bindings>
  {
    var c :- Reader(data, start, end).U32();
    BindingEntries(data, start + 4, end, c.0, map[])
  }

  /** The inline copy of that loop in pass A, which adds to the table built
      from the earlier DCBM lists. */
  function BindingList(data: seq<byte>, start: nat, end: nat, acc: Bindings): Outcome<Bindings>
  {
    var c :- Reader(data, start, end).U32();
    BindingEntries(data, start + 4, end, c.0, acc)
  }

  // ---------------------------------------------------------------------------
  // Containers (DDCB)

  /** Pass A: the binding table from every DCBM child, in order. */
  function BindingPass(data: seq<byte>, cs: seq<FrameHeader>, acc: Bindings): Outcome<Bindings>
    decreases |cs|
  {
    if cs == [] then Ok(acc)
    else
      var acc2 :- if cs[0].tag == "DCBM" then BindingList(data, cs[0].payloadStart, cs[0].payloadEnd, acc) else Ok(acc);
      BindingPass(data, cs[1..], acc2)
  }

  /** Pass B: the rows of every CMAS child, in order, against the finished table. */
  function MappingPass(data: seq<byte>, cs: seq<FrameHeader>, name: string, target: nat,
                       bindings: Bindings): Outcome<seq<Row>>
    decreases |cs|
  {
    if cs == [] then Ok([])
    else
      var here :- if cs[0].tag == "CMAS" then MappingsList(data, cs[0].payloadStart, cs[0].payloadEnd, name, target, bindings)
                  else Ok([]);
      var rest :- MappingPass(data, cs[1..], name, target, bindings);
      Ok(here + rest)
  }

  /** Both passes over an already scanned child list. */
  function ContainerOver(data: seq<byte>, cs: seq<FrameHeader>, name: string, target: nat): Outcome<seq<Row>>
  {
    var bindings :- BindingPass(data, cs, map[]);
    MappingPass(data, cs, name, target, bindings)
  }

  /** `_parse_mappings_container`: scan the children, then pass A, then pass B. */
  function MappingsContainer(data: seq<byte>, start: nat, end: nat, name: string, target: nat): Outcome<seq<Row>>
  {
    var cs :- ChildHeaders(data, start, end);
    ContainerOver(data, cs, name, target)
  }

  // ---------------------------------------------------------------------------
  // Device data (DDAT) and devices (DEVI)

  /** The loop of `_parse_device_data` from `pos` on, with the device target
      in force: a DDIF child replaces the target by its first word, a DDCB
      child is decoded with the current target, any other child is skipped. */
  function DeviceDataChildren(data: seq<byte>, pos: nat, end: nat, name: string, target: nat): Outcome<seq<Row>>
    decreases end - pos
  {
    if pos >= end then Ok([])
    else
      var p :- ReadFrameHeader(Reader(data, pos, end));
      var h := p.0;
      if h.tag == "DDIF" then
        var w :- Reader(data, h.payloadStart, h.payloadEnd).U32();
        DeviceDataChildren(data, h.payloadEnd, end, name, w.0)
      else
        var here :- if h.tag == "DDCB" then MappingsContainer(data, h.payloadStart, h.payloadEnd, name, target) else Ok([]);
        var rest :- DeviceDataChildren(data, h.payloadEnd, end, name, target);
        Ok(here + rest)
  }

  /** `_parse_device_data`: the device target starts at 0. */
  function ParseDeviceData(data: seq<byte>, start: nat, end: nat, name: string): Outcome<seq<Row>>
  {
    DeviceDataChildren(data, start, end, name, 0)
  }

  /** The loop of `_parse_device`: DDAT children are decoded, others skipped. */
  function DeviceChildren(data: seq<byte>, pos: nat, end: nat, name: string): Outcome<seq<Row>>
    decreases end - pos
  {
    if pos >= end then Ok([])
    else
      var p :- ReadFrameHeader(Reader(data, pos, end));
      var h := p.0;
      var here :- if h.tag == "DDAT" then ParseDeviceData(data, h.payloadStart, h.payloadEnd, name) else Ok([]);
      var rest :- DeviceChildren(data, h.payloadEnd, end, name);
      Ok(here + rest)
  }

  /** `_parse_device`: a code-unit count and the UTF-16BE device name, then
      the children from the end of the name on. */
  function ParseDevice(data: seq<byte>, start: nat, end: nat): Outcome<seq<Row>>
  {
    var n :- Reader(data, start, end).U32();
    var text := n.1.Bytes(2 * n.0);
    DeviceChildren(data, text.1.off, end, Utf16BeDecode(text.0))
  }

  /** The device decode of one walked node: DEVI nodes over their payload,
      nothing for any other tag. */
  function NodeRows(data: seq<byte>, n: FrameNode): Outcome<seq<Row>>
  {
    if n.id4 == "DEVI" then ParseDevice(data, n.start + 8, n.end) else Ok([])
  }

  /** The loop of `parse` over the walked nodes. */
  function DevicesIn(data: seq<byte>, nodes: seq<FrameNode>): Outcome<seq<Row>>
    decreases |nodes|
  {
    if nodes == [] then Ok([])
    else
      var here :- NodeRows(data, nodes[0]);
      var rest :- DevicesIn(data, nodes[1..]);
      Ok(here + rest)
  }

  /** `TsiParser.parse`: the rows of every DEVI node the walker finds in the
      blob, in walk order. */
  function Parse(blob: seq<byte>): Outcome<seq<Row>>
  {
    DevicesIn(blob, Walk(blob, 0, |blob|))
  }
}
