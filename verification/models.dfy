/** The decoded mapping record (`MappingRow` in `models.py`): four required
    fields, every other field optional. A field whose Python type is an enum
    holds what the decoder's cast leaves there: the variant, or the raw
    integer when the value is not one of the set. Floats are kept as their
    raw 32-bit words.
 */
module Models {
  import opened Wrappers
  import opened ByteIO
  import opened Enums

  datatype Row = Row(
    // required
    deviceName: string,
    deviceTarget: int,
    traktorControlId: int,
    midiBindingId: int,
    // optional
    deviceNameRawHex: Option<string>,
    mappingType: Option<EnumOrRaw<MappingType>>,
    midiNote: Option<string>,
    midiNoteRawHex: Option<string>,
    midiChannel: Option<int>,
    midiEvent: Option<string>,
    midiNumber: Option<int>,
    midiNoteName: Option<string>,
    midiEncoderMode: Option<EnumOrRaw<MidiEncoderMode>>,
    midiDefaultVelocity: Option<Float32>,
    midiControlId: Option<int>,
    controllerType: Option<EnumOrRaw<ControllerType>>,
    interactionMode: Option<EnumOrRaw<InteractionMode>>,
    deckScope: Option<EnumOrRaw<MappingTargetDeck>>,
    autoRepeat: Option<int>,
    invert: Option<int>,
    softTakeover: Option<int>,
    rotarySensitivity: Option<Float32>,
    rotaryAcceleration: Option<Float32>,
    setValueTo: Option<Float32>,
    mod1Id: Option<int>,
    mod1Val: Option<int>,
    mod2Id: Option<int>,
    mod2Val: Option<int>,
    ledMinController: Option<Float32>,
    ledMaxController: Option<Float32>,
    ledMinMidi: Option<int>,
    ledMaxMidi: Option<int>,
    ledInvert: Option<int>,
    ledBlend: Option<int>,
    resolutionRaw: Option<EnumOrRaw<MappingResolution>>,
    comment: Option<string>,
    commentRawHex: Option<string>,
    mappingTypeRaw: Option<int>,
    controllerTypeRaw: Option<int>,
    interactionModeRaw: Option<int>,
    deckScopeRaw: Option<int>,
    resolutionDword: Option<int>
  )

  /** The fields the decoder never assigns: the raw-hex dumps, everything
      derived from the binding name or from MIDI definitions, and the raw
      integer fallbacks. */
  predicate UnsetByDecoder(r: Row) {
    && r.deviceNameRawHex.None?
    && r.midiNoteRawHex.None?
    && r.midiChannel.None? && r.midiEvent.None? && r.midiNumber.None? && r.midiNoteName.None?
    && r.midiEncoderMode.None? && r.midiDefaultVelocity.None? && r.midiControlId.None?
    && r.commentRawHex.None?
    && r.mappingTypeRaw.None? && r.controllerTypeRaw.None? && r.interactionModeRaw.None?
    && r.deckScopeRaw.None? && r.resolutionDword.None?
  }

  /** Every optional field of a row. */
  predicate AllOptionalUnset(r: Row) {
    && UnsetByDecoder(r)
    && r.mappingType.None? && r.midiNote.None?
    && r.controllerType.None? && r.interactionMode.None? && r.deckScope.None?
    && r.autoRepeat.None? && r.invert.None? && r.softTakeover.None?
    && r.rotarySensitivity.None? && r.rotaryAcceleration.None? && r.setValueTo.None?
    && r.mod1Id.None? && r.mod1Val.None? && r.mod2Id.None? && r.mod2Val.None?
    && r.ledMinController.None? && r.ledMaxController.None?
    && r.ledMinMidi.None? && r.ledMaxMidi.None? && r.ledInvert.None? && r.ledBlend.None?
    && r.resolutionRaw.None? && r.comment.None?
  }

  /** `MappingRow(device_name, device_target, traktor_control_id,
      midi_binding_id)`: the four required fields are the only arguments, and
      every other field takes its default, None. */
  function NewRow(deviceName: string, deviceTarget: int, traktorControlId: int, midiBindingId: int): (r: Row)
    ensures r.deviceName == deviceName && r.deviceTarget == deviceTarget
    ensures r.traktorControlId == traktorControlId && r.midiBindingId == midiBindingId
    ensures AllOptionalUnset(r)
  {
    Row(deviceName, deviceTarget, traktorControlId, midiBindingId,
        None, None, None, None, None, None, None, None, None, None, None,
        None, None, None, None, None, None, None, None, None, None, None,
        None, None, None, None, None, None, None, None, None, None, None,
        None, None, None, None, None)
  }
}
