/** The closed value sets of the mapping format (`enums.py`). Each Python
    `IntEnum` is a datatype with its integer `Value` and a `Lookup` that
    plays the part of `Enum(raw)`: it yields the variant carrying `raw` or
    nothing when `raw` is not one of the listed values.
 */
module Enums {
  import opened Wrappers

  // ---------------------------------------------------------------------------
  // DeviceTarget

  /** The top-level device scope. */
  datatype DeviceTarget = Focus | DeckA | DeckB | DeckC | DeckD {
    function Value(): (v: int)
      ensures 0 <= v <= 4
    {
      match this
      case Focus => 0
      case DeckA => 1
      case DeckB => 2
      case DeckC => 3
      case DeckD => 4
    }
  }

  function DeviceTargetLookup(raw: int): (r: Option<DeviceTarget>)
    ensures r.Some? <==> 0 <= raw <= 4
    ensures r.Some? ==> r.value.Value() == raw
  {
    if raw == 0 then Some(Focus)
    else if raw == 1 then Some(DeckA)
    else if raw == 2 then Some(DeckB)
    else if raw == 3 then Some(DeckC)
    else if raw == 4 then Some(DeckD)
    else None
  }

  lemma DeviceTargetRoundTrip(t: DeviceTarget)
    ensures DeviceTargetLookup(t.Value()) == Some(t)
  {
  }

  // ---------------------------------------------------------------------------
  // MidiEncoderMode

  /** The encoder delta coding: 3Fh/41h or 7Fh/01h. */
  datatype MidiEncoderMode = Enc3Fh41h | Enc7Fh01h {
    function Value(): (v: int)
      ensures v == 0 || v == 1
    {
      match this
      case Enc3Fh41h => 0
      case Enc7Fh01h => 1
    }
  }

  function MidiEncoderModeLookup(raw: int): (r: Option<MidiEncoderMode>)
    ensures r.Some? <==> raw == 0 || raw == 1
    ensures r.Some? ==> r.value.Value() == raw
  {
    if raw == 0 then Some(Enc3Fh41h)
    else if raw == 1 then Some(Enc7Fh01h)
    else None
  }

  lemma MidiEncoderModeRoundTrip(m: MidiEncoderMode)
    ensures MidiEncoderModeLookup(m.Value()) == Some(m)
  {
  }

  // ---------------------------------------------------------------------------
  // MappingTargetDeck

  /** The per-mapping deck scope: the device's own deck (-1) or one of the
      sixteen slots 0..15, named after what each slot means for decks, FX
      units and remix decks. */
  datatype MappingTargetDeck =
    | DeviceTargetDeck
    | AOrFx1OrRemix1Slot1OrGlobal | BOrFx2OrRemix1Slot2 | COrFx3OrRemix1Slot3 | DOrFx4OrRemix1Slot4
    | Remix2Slot1 | Remix2Slot2 | Remix2Slot3 | Remix2Slot4
    | Remix3Slot1 | Remix3Slot2 | Remix3Slot3 | Remix3Slot4
    | Remix4Slot1 | Remix4Slot2 | Remix4Slot3 | Remix4Slot4
  {
    function Value(): (v: int)
      ensures -1 <= v <= 15
    {
      match this
      case DeviceTargetDeck => -1
      case AOrFx1OrRemix1Slot1OrGlobal => 0
      case BOrFx2OrRemix1Slot2 => 1
      case COrFx3OrRemix1Slot3 => 2
      case DOrFx4OrRemix1Slot4 => 3
      case Remix2Slot1 => 4
      case Remix2Slot2 => 5
      case Remix2Slot3 => 6
      case Remix2Slot4 => 7
      case Remix3Slot1 => 8
      case Remix3Slot2 => 9
      case Remix3Slot3 => 10
      case Remix3Slot4 => 11
      case Remix4Slot1 => 12
      case Remix4Slot2 => 13
      case Remix4Slot3 => 14
      case Remix4Slot4 => 15
    }
  }

  /** The variants in value order: `DeckOrder[i]` carries the value `i - 1`. */
  const DeckOrder: seq<MappingTargetDeck> := [
    DeviceTargetDeck,
    AOrFx1OrRemix1Slot1OrGlobal, BOrFx2OrRemix1Slot2, COrFx3OrRemix1Slot3, DOrFx4OrRemix1Slot4,
    Remix2Slot1, Remix2Slot2, Remix2Slot3, Remix2Slot4,
    Remix3Slot1, Remix3Slot2, Remix3Slot3, Remix3Slot4,
    Remix4Slot1, Remix4Slot2, Remix4Slot3, Remix4Slot4
  ]

  function MappingTargetDeckLookup(raw: int): (r: Option<MappingTargetDeck>)
    ensures r.Some? <==> -1 <= raw <= 15
  {
    if -1 <= raw <= 15 then Some(DeckOrder[raw + 1]) else None
  }

  /** The deck values form the contiguous range -1..15: every value in it is
      found, and it is found as the variant that carries it. */
  lemma MappingTargetDeckLookupValue(raw: int)
    ensures MappingTargetDeckLookup(raw).Some? ==> MappingTargetDeckLookup(raw).value.Value() == raw
  {
    if -1 <= raw <= 15 {
      assert DeckOrder[raw + 1].Value() == raw;
    }
  }

  lemma MappingTargetDeckRoundTrip(d: MappingTargetDeck)
    ensures MappingTargetDeckLookup(d.Value()) == Some(d)
  {
  }

  // ---------------------------------------------------------------------------
  // InteractionMode

  datatype InteractionMode = Toggle | Hold | Direct | Relative | Increment | Decrement | Reset | Output {
    function Value(): (v: int)
      ensures 1 <= v <= 8
    {
      match this
      case Toggle => 1
      case Hold => 2
      case Direct => 3
      case Relative => 4
      case Increment => 5
      case Decrement => 6
      case Reset => 7
      case Output => 8
    }
  }

  /** `InteractionMode.DIRECT`, the only mode for which a set-to value is meaningful. */
  const DIRECT_MODE: int := 3

  function InteractionModeLookup(raw: int): (r: Option<InteractionMode>)
    ensures r.Some? <==> 1 <= raw <= 8
    ensures r.Some? ==> r.value.Value() == raw
    ensures r == Some(Direct) <==> raw == DIRECT_MODE
  {
    if raw == 1 then Some(Toggle)
    else if raw == 2 then Some(Hold)
    else if raw == 3 then Some(Direct)
    else if raw == 4 then Some(Relative)
    else if raw == 5 then Some(Increment)
    else if raw == 6 then Some(Decrement)
    else if raw == 7 then Some(Reset)
    else if raw == 8 then Some(Output)
    else None
  }

  lemma InteractionModeRoundTrip(m: InteractionMode)
    ensures InteractionModeLookup(m.Value()) == Some(m)
  {
  }

  // ---------------------------------------------------------------------------
  // ControllerType

  datatype ControllerType = Button | FaderOrKnob | Encoder | Led {
    function Value(): (v: int)
      ensures v in {0, 1, 2, 65535}
    {
      match this
      case Button => 0
      case FaderOrKnob => 1
      case Encoder => 2
      case Led => 65535
    }
  }

  function ControllerTypeLookup(raw: int): (r: Option<ControllerType>)
    ensures r.Some? <==> raw in {0, 1, 2, 65535}
    ensures r.Some? ==> r.value.Value() == raw
  {
    if raw == 0 then Some(Button)
    else if raw == 1 then Some(FaderOrKnob)
    else if raw == 2 then Some(Encoder)
    else if raw == 65535 then Some(Led)
    else None
  }

  lemma ControllerTypeRoundTrip(c: ControllerType)
    ensures ControllerTypeLookup(c.Value()) == Some(c)
  {
  }

  // ---------------------------------------------------------------------------
  // MappingResolution

  /** The resolution word, kept as the raw big-endian float word. `DEFAULT`
      is an alias of `MIN` in the source and has no variant of its own. */
  datatype MappingResolution = Fine | Min | Coarse | Switch {
    function Value(): (v: int)
      ensures v in {0x3C80_0000, 0x3D80_0000, 0x3E00_0000, 0x3F00_0000}
    {
      match this
      case Fine => 0x3C80_0000
      case Min => 0x3D80_0000
      case Coarse => 0x3E00_0000
      case Switch => 0x3F00_0000
    }
  }

  /** `MappingResolution.DEFAULT`: the same word as `MIN`. */
  const RESOLUTION_DEFAULT: int := 0x3D80_0000

  function MappingResolutionLookup(raw: int): (r: Option<MappingResolution>)
    ensures r.Some? <==> raw in {0x3C80_0000, 0x3D80_0000, 0x3E00_0000, 0x3F00_0000}
    ensures r.Some? ==> r.value.Value() == raw
  {
    if raw == 0x3C80_0000 then Some(Fine)
    else if raw == 0x3D80_0000 then Some(Min)
    else if raw == 0x3E00_0000 then Some(Coarse)
    else if raw == 0x3F00_0000 then Some(Switch)
    else None
  }

  /** Looking up the default word yields `MIN`, and the four variants carry
      four distinct words. */
  lemma ResolutionDefaultIsMin()
    ensures MappingResolutionLookup(RESOLUTION_DEFAULT) == Some(Min)
    ensures forall a: MappingResolution, b: MappingResolution :: a.Value() == b.Value() ==> a == b
  {
  }

  lemma MappingResolutionRoundTrip(m: MappingResolution)
    ensures MappingResolutionLookup(m.Value()) == Some(m)
  {
  }

  // ---------------------------------------------------------------------------
  // MappingType

  datatype MappingType = In | Out {
    function Value(): (v: int)
      ensures v == 0 || v == 1
    {
      match this
      case In => 0
      case Out => 1
    }
  }

  function MappingTypeLookup(raw: int): (r: Option<MappingType>)
    ensures r.Some? <==> raw == 0 || raw == 1
    ensures r.Some? ==> r.value.Value() == raw
  {
    if raw == 0 then Some(In)
    else if raw == 1 then Some(Out)
    else None
  }

  lemma MappingTypeRoundTrip(m: MappingType)
    ensures MappingTypeLookup(m.Value()) == Some(m)
  {
  }

  // ---------------------------------------------------------------------------
  // Variant or raw integer

  /** What `_cast` leaves in a row: the variant when the raw value is one of
      the set, the raw integer otherwise. */
  datatype EnumOrRaw<E> = Variant(variant: E) | RawInt(raw: int)

  /** `_cast(enum_cls, val)`: None stays None, a known value becomes its
      variant, any other value stays the raw integer. */
  function Cast<E>(lookup: int -> Option<E>, v: Option<int>): (r: Option<EnumOrRaw<E>>)
    ensures v.None? <==> r.None?
    ensures v.Some? && lookup(v.value).Some? ==> r == Some(Variant(lookup(v.value).value))
    ensures v.Some? && lookup(v.value).None? ==> r == Some(RawInt(v.value))
  {
    match v
    case None => None
    case Some(x) =>
      match lookup(x)
      case Some(e) => Some(Variant(e))
      case None => Some(RawInt(x))
  }

  /** The integer a cast value stands for. */
  function CastValue<E>(value: E -> int, c: EnumOrRaw<E>): int {
    match c
    case Variant(e) => value(e)
    case RawInt(x) => x
  }

  /** Casting never loses the number: for a lookup whose variants carry the
      value they were found for, the cast value reads back as the input. */
  lemma CastKeepsValue<E>(lookup: int -> Option<E>, value: E -> int, x: int)
    requires lookup(x).Some? ==> value(lookup(x).value) == x
    ensures Cast(lookup, Some(x)).Some?
    ensures CastValue(value, Cast(lookup, Some(x)).value) == x
  {
  }

  /** A deck scope read from an unsigned word is never negative, so it never
      becomes `DEVICE_TARGET_DECK`; the all-ones word stays the raw integer
      4294967295. */
  lemma DeckScopeFromWord(w: nat)
    ensures Cast(MappingTargetDeckLookup, Some(w)) != Some(Variant(DeviceTargetDeck))
    ensures Cast(MappingTargetDeckLookup, Some(0xFFFF_FFFF)) == Some(RawInt(4294967295))
  {
    MappingTargetDeckLookupValue(w);
  }
}
