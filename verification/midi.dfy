/** modo's MIDIEvent: a status byte and two data bytes, read with the bit masks of the
    MIDI 1.0 Detailed Specification (Table I, status bytes; Table II, channel voice
    messages 0x8n note-off and 0x9n note-on; Table V, 0xF8 timing clock). */
module Midi {

  datatype Event = Event(status: bv8, data1: bv8, data2: bv8)

  /** The default event: status 0 (no event), data bytes 0 and 2. */
  const Default: Event := Event(0, 0, 2)

  /** System real-time timing clock, the status MIDIClock emits. */
  const ClockStatus: bv8 := 0xF8
  const Clock: Event := Event(ClockStatus, 0, 0)

  /** `operator bool`: a status byte has its top bit set. */
  function IsEvent(e: Event): (b: bool)
    ensures b <==> e.status >= 0x80
  {
    e.status & 0x80 != 0
  }

  /** `is_note_off`: the high nibble is 8, whatever the channel. */
  function IsNoteOff(e: Event): (b: bool)
    ensures b <==> 0x80 <= e.status <= 0x8F
  {
    e.status & 0xF0 == 0x80
  }

  /** `is_note_on`: the high nibble is 9, whatever the channel and the velocity. */
  function IsNoteOn(e: Event): (b: bool)
    ensures b <==> 0x90 <= e.status <= 0x9F
  {
    e.status & 0xF0 == 0x90
  }

  /** `get_channel`: the low nibble. */
  function Channel(e: Event): (c: bv8)
    ensures c < 16
    ensures c == e.status % 16
  {
    e.status & 0x0F
  }

  /** `create_note_off`: for a channel below 16, a note-off on that channel carrying the note and
      velocity unchanged. */
  function NoteOff(note: bv8, velocity: bv8, channel: bv8): (e: Event)
    ensures channel < 16 ==> IsEvent(e) && IsNoteOff(e) && !IsNoteOn(e) && Channel(e) == channel
    ensures e.data1 == note && e.data2 == velocity
  {
    Event(0x80 | channel, note, velocity)
  }

  /** `create_note_on`: for a channel below 16, a note-on on that channel carrying the note and
      velocity unchanged. */
  function NoteOn(note: bv8, velocity: bv8, channel: bv8): (e: Event)
    ensures channel < 16 ==> IsEvent(e) && IsNoteOn(e) && !IsNoteOff(e) && Channel(e) == channel
    ensures e.data1 == note && e.data2 == velocity
  {
    Event(0x90 | channel, note, velocity)
  }

  /** The default event is no event at all. */
  lemma DefaultIsNoEvent()
    ensures !IsEvent(Default) && !IsNoteOn(Default) && !IsNoteOff(Default)
    ensures Default.data2 == 2
  {
  }

  /** The clock is an event but not a note message. */
  lemma ClockIsNotANote()
    ensures IsEvent(Clock) && !IsNoteOn(Clock) && !IsNoteOff(Clock)
  {
  }

  /** Every note-on or note-off message is rebuilt exactly from its note, velocity and channel. */
  lemma NoteMessagesRoundTrip(e: Event)
    ensures IsNoteOn(e) ==> NoteOn(e.data1, e.data2, Channel(e)) == e
    ensures IsNoteOff(e) ==> NoteOff(e.data1, e.data2, Channel(e)) == e
  {
  }

  /** A note-on with velocity 0 still counts as a note-on. */
  lemma SilentNoteOnIsNoteOn(note: bv8, channel: bv8)
    requires channel < 16
    ensures IsNoteOn(NoteOn(note, 0, channel))
  {
  }

  /** Past channel 15 the channel bits spill into the message type: channel 16 turns a note-off
      into a note-on. */
  lemma WideChannelSpills()
    ensures IsNoteOn(NoteOff(60, 64, 16))
  {
  }
}
