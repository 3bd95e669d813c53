# modo in Dafny

A Dafny model of the core of modo, a header-only C++ library for writing synthesizers and
drum machines sample by sample. The model covers:

- modo's two containers, `RingBuffer` and `Queue`;
- the pull graph that connects units: `Value`, `Input`, `Node`, `Node2` and `InputTuple`;
- the MIDI side: `MIDIEvent`, the step sequencers `NotePattern` and `Pattern<N>`, and the
  note-driven controls `ADSR`, `Frequency` and `Velocity`;
- the `Automation` script interpreter: `parse_number`, `skip_space`, `process` and `reset`;
- the stereo and effect units `Pan`, `Width`, `Mono`, `Clip`, `Delay` and `Freeverb`, with its
  comb and all-pass filters and its `room_size` mapping.

Every unit is a pure function from its state and inputs to its new state and output. A C++ call
`x.process(...)` that updates members becomes `Process(x, ...)`, which returns `(x', output)`.

Some C++ things become something else in the model:

- `float` is `real`. `DT` is exactly 1/44100.
- `uchar` is `bv8`, so the MIDI masks are literal bit operations.
- A `const char*` script is a `string`. Reading past its end yields the terminator (`CStrings.CharAt`).

The graph is an arena:

- The units live in a sequence.
- An input socket is either a constant (`Const`) or a link to another unit's output (`Link`).
- Each unit memoises its value together with the tick it was computed for.

The files are:

- **Containers:** `rings.dfy`, `queues.dfy`, and `delay_lines.dfy`, which holds the read-then-write
  step that Delay, Comb and AllPass share.
- **Graph:** `graph.dfy`.
- **MIDI:** `midi.dfy`, `note_pattern.dfy` and `pattern.dfy`.
- **Controls:** `envelope.dfy` (ADSR) and `control.dfy` (Frequency and Velocity).
- **Automation:** `cstrings.dfy` and `automation.dfy`.
- **Signal units:** `signals.dfy`, `delay.dfy` and `freeverb.dfy`.
- **Arithmetic:** `arith.dfy` holds the modular and real-number facts that the ring buffer, the pattern clocks and the glides share, and the power function.

Each operation is paired with a partner: an inverse, an invariant it keeps, or an independent
reference definition. For example:

- Queue's put and take come back out as a FIFO (`Queues.FifoRoundTrip`).
- Comb and AllPass are delay lines driven by the values they write (`Freeverb.CombIsDelayLine`).
- Delay's output at any feedback is read off a closed-form echo history of its inputs (`Delay.DelayEchoes`).
- `parse_number` reads any decimal numeral back as its value (`Automation.ParseNumberReadsNumeral`).
- The sequencers' events are compared with a score read off the pattern text (`NotePatterns.TicksFollowScore`).

Some behaviours of the code are easy to miss, and the model keeps them:

- **A tied note ends twice.** A `NotePattern` such as `"0-- -"` sends a note-off at the end of the
  tie and another at the end of the cycle (`NotePatterns.TiedPatternScore`).
- **The queue can overflow.** `Pattern<N>` queues at most N events. If two clocks arrive on
  back-to-back calls, the queue can overflow and overwrite the oldest pending event
  (`Patterns.BackToBackClocksOverflow`).
- **A wide channel spills.** A MIDI channel of 16 or more spills into the status nibble, so
  `create_note_off(…, 16)` builds a note-on (`Midi.WideChannelSpills`).
- **Velocity can exceed 1.** A note-on data byte above 127 gives a level above 1; seven-bit data
  keeps it in [0, 1] (`Control.Strike`).
- **A graph cycle is a one-tick delay.** A node linked to its own output reads its previous value
  (`Graph.SelfLoopDelays`).

## Model

| member | source | states |
|---|---|---|
| `Rings.New` | modo.hh:35 | a fresh buffer is valid, has capacity N and holds the fill value (the element type's default) in every logical slot |
| `Rings.Slot` | modo.hh:37 | logical index i names a physical slot `(start + i) % N` inside the buffer |
| `Rings.GetReadsSlot` | modo.hh:36-38 | `[i]` for i below N reads slot start + i, wrapping once past the end of the storage |
| `Rings.GetWraps` | modo.hh:36-38 | indices are taken modulo N: `[i + N]` reads the same slot as `[i]` |
| `Rings.Set` | modo.hh:36-38 | writing `[i]` changes exactly the slot i maps to; every index on another slot keeps its value |
| `Rings.Rotate` | modo.hh:39-41 | `++` shifts the logical view: new `[i]` is old `[i + 1]`, the stored data unchanged |
| `Rings.Unrotate` | modo.hh:42-44 | `--` shifts the view back: new `[i + 1]` is old `[i]` and new `[0]` is old `[N - 1]` |
| `Rings.UnrotateUndoesRotate` | modo.hh:39-44 | `--` after `++` restores the buffer exactly |
| `Rings.RotateUndoesUnrotate` | modo.hh:39-44 | `++` after `--` restores the buffer exactly |
| `Rings.RotateStart` | modo.hh:40 | the start advances by one and wraps from the last slot to slot 0 |
| `Rings.UnrotateStart` | modo.hh:43 | the start moves back by one and wraps from slot 0 to the last slot |
| `Rings.Contents` | modo.hh:36-38 | the buffer in logical order has N elements, element j being `[j]` |
| `Rings.ContentsAfterWriteAndRotate` | modo.hh:36-41 | writing `[0]` then `++` drops the oldest element and appends the written one |
| `Rings.SlotsDistinct` | modo.hh:37 | distinct logical indices below N never share a physical slot |
| `Queues.New` | modo.hh:51 | a new queue has capacity N and no untaken elements |
| `Queues.Contents` | modo.hh:48-49 | the untaken elements are the first `size` logical slots of the buffer |
| `Queues.Put` | modo.hh:52-55 | put grows size by one and, while there is room, appends the element after the untaken ones |
| `Queues.Take` | modo.hh:56-61 | take returns the oldest element and leaves the rest in order |
| `Queues.IsEmpty` | modo.hh:62-64 | is_empty holds exactly when no element is untaken |
| `Queues.PutAllAppends` | modo.hh:52-55 | puts that fit append their elements, in order, to the untaken ones |
| `Queues.DrainYieldsContents` | modo.hh:56-64 | taking until empty yields the untaken elements oldest first |
| `Queues.FifoRoundTrip` | modo.hh:47-65 | what is put into a queue with room comes out of it in the same order |
| `DelayLines.Tick` | modo.hh:308-311 | one read-then-write step returns the oldest value and appends the written value |
| `DelayLines.Feed` | modo.hh:307-313 | driving a line with n writes gives n reads and keeps the capacity |
| `DelayLines.FeedDelaysByCapacity` | modo.hh:307-313 | read k is the value written N steps earlier, or the initial content for the first N steps |
| `DelayLines.FreshLineLags` | modo.hh:305-311 | a fresh zero-filled line reads 0 for N steps, then the writes lagged by N |
| `Signals.Splat` | modo.hh:96 | `Sample(float)` puts the value on both channels |
| `Signals.Add` | modo.hh:98-100 | the sum of two samples adds left to left and right to right |
| `Signals.Scale` | modo.hh:101-103 | scaling a sample multiplies both channels by the same gain |
| `Signals.SampleLaws` | modo.hh:98-103 | `+` is commutative and associative with silence as unit, `*` distributes over `+`, gains compose by multiplication, gain 1 is the identity and gain 0 silences |
| `Signals.Swap` | modo.hh:276 | the swapped pair exchanges left and right |
| `Signals.Mono` | modo.hh:280-285 | the mono value lies between the channels and equals them when they agree |
| `Signals.Pan` | modo.hh:266-271 | the two channels add up to the input; -1, 0 and 1 give hard left, centre and hard right |
| `Signals.Width` | modo.hh:273-278 | width 1 passes the pair, -1 swaps it, 0 collapses both channels onto the mono value |
| `Signals.Clip` | modo.hh:287-292 | the result lies in [-0.9, 0.9], equals in-range input and saturates beyond it |
| `Signals.ClipIdempotentAndMonotone` | modo.hh:287-292 | clipping twice is clipping once, and clipping keeps the order of inputs |
| `Signals.SwapInvolution` | modo.hh:276 | swapping twice is the identity, and mono ignores the channel order |
| `Signals.PanMirror` | modo.hh:268-270 | negating the pan position swaps the channels |
| `Signals.WidthKeepsMono` | modo.hh:273-285 | every width keeps the mono sum of the pair |
| `Signals.WidthIsAdditive` | modo.hh:273-278 | width distributes over the sum of two sample pairs |
| `Signals.WidthMidSide` | modo.hh:273-278 | Width keeps the sum of the channels and scales their difference by the width |
| `Signals.MidSideDetermine` | modo.hh:92-97 | a sample is determined by the sum and the difference of its channels |
| `Signals.WetDry` | modo.hh:312 | `Width(pair, width) * wet + Sample(input) * dry`: its channel sum is wet times the pair's sum plus twice dry times the input, its channel difference is wet times width times the pair's difference; a silent pair or wet 0 leaves the dry input on both channels |
| `Delay.New` | modo.hh:305 | a new delay of length N is a zero-filled buffer of capacity N |
| `Delay.Taps` | modo.hh:308-309 | the left tap is the oldest buffered value times feedback², the right tap the value N/2 places along times feedback |
| `Delay.Process` | modo.hh:307-313 | the buffer drops its oldest value and appends the input plus the left tap; the output is the two taps through Width at wet plus the dry input (`Signals.WetDry`); with feedback or wet 0 only the dry input is heard |
| `Delay.NoFeedbackIsDryDelayLine` | modo.hh:307-313 | without feedback every output is the dry input, and the buffer is a delay line of the inputs |
| `Delay.FreshDelayTapLagsInput` | modo.hh:307-311 | a fresh delay of length N run without feedback, at any wet, dry and width: at step k its `[0]` tap reads 0 while k < N and the input of step k - N after that |
| `Delay.RunEchoes` | modo.hh:307-313 | over any input stream at any feedback, the buffer is the starting contents shifted by one echo step per input, and output k is the wet/dry stage of the taps read after k steps |
| `Delay.EchoSnoc` | modo.hh:310-311 | one more input is one more shift: it drops the oldest value and appends the input plus feedback² times that value |
| `Delay.EchoHoldsHistory` | modo.hh:310-311 | after k steps slot j holds history value k + j: the starting contents, then each input plus feedback² times the value N steps before it |
| `Delay.TapsReadHistory` | modo.hh:308-309 | after k steps the taps read history k times feedback² and history k + N/2 times feedback |
| `Delay.DelayEchoes` | modo.hh:307-313 | at any feedback, output k is the wet/dry stage of history k times feedback² and history k + N/2 times feedback |
| `Freeverb.NewComb` | modo.hh:337 | a new comb has a line of capacity N |
| `Freeverb.LowPass` | modo.hh:341 | the damping filter lies between the value read and its previous output, and passes the read when damp is 0 |
| `Freeverb.CombProcess` | modo.hh:338-346 | a comb step returns the value written N steps earlier, filters it and appends input plus filtered times feedback |
| `Freeverb.CombIsDelayLine` | modo.hh:338-346 | over any input stream a comb is a delay line driven by the values it writes |
| `Freeverb.FreshCombLags` | modo.hh:337-346 | a fresh comb outputs 0 for N steps, then its writes lagged by N |
| `Freeverb.NewAllPass` | modo.hh:352 | a new all-pass has a line of capacity N |
| `Freeverb.AllPassProcess` | modo.hh:353-359 | an all-pass step returns the read minus the input and appends input plus half the read |
| `Freeverb.AllPassIsDelayLine` | modo.hh:353-359 | over any input stream an all-pass is a delay line of its writes, each output being that read minus the input |
| `Freeverb.FreshAllPassLags` | modo.hh:352-359 | a fresh all-pass outputs the negated input for N steps, then the write N steps back minus the input |
| `Freeverb.CombBank` | modo.hh:376-385 | all eight combs see the same input and the result is the sum of their reads |
| `Freeverb.AllPassChain` | modo.hh:387-390 | there is one all-pass out per all-pass in, and each keeps its length |
| `Freeverb.AllPassChainInSeries` | modo.hh:387-390 | all-pass k is stepped on the output of all-pass k - 1, the first on the input, and the chain outputs what the last one outputs |
| `Freeverb.NewChannel` | modo.hh:361-373 | a channel has combs 1116…1617 and all-passes 556…225, each lengthened by the spread |
| `Freeverb.ChannelProcess` | modo.hh:375-392 | a channel step keeps the channel's shape |
| `Freeverb.ChannelInSeries` | modo.hh:375-392 | every comb steps on the input; the all-passes run in series on the sum of the combs' reads; the channel outputs the last all-pass's output |
| `Freeverb.New` | modo.hh:394-395 | the reverb has two channels with spreads 0 and 23 |
| `Freeverb.RoomFeedback` | modo.hh:399 | room_size in [0, 1] gives a comb feedback in [0.7, 0.98], with endpoints 0.7 and 0.98 |
| `Freeverb.Damping` | modo.hh:400 | damp in [0, 1] becomes a filter coefficient in [0, 0.4] |
| `Freeverb.RoomFeedbackIncreasing` | modo.hh:399 | a larger room gives strictly more feedback |
| `Freeverb.Process` | modo.hh:397-406 | each channel steps on input·0.03 with feedback `RoomFeedback(room_size)` and damping `Damping(damp)`, the left with spread 0 and the right with spread 23; the output is the two channel outputs through Width at 3·wet plus the input at 2·dry (`Signals.WetDry`); with wet 0 only the dry input is heard |
| `Freeverb.NewIsSilent` | modo.hh:337-352 | a new reverb holds zeros in every buffer and filter memory |
| `Freeverb.SilenceIsFixedPoint` | modo.hh:397-406 | a silent reverb fed 0 outputs silence and stays silent |
| `Midi.IsEvent` | modo.hh:488-490 | an event is present exactly when the status byte has its top bit set |
| `Midi.IsNoteOff` | modo.hh:491-493 | a note-off is exactly a status in 0x80..0x8F |
| `Midi.IsNoteOn` | modo.hh:494-496 | a note-on is exactly a status in 0x90..0x9F |
| `Midi.Channel` | modo.hh:497-499 | the channel is the status's low nibble, below 16 |
| `Midi.NoteOff` | modo.hh:482-484 | for channels below 16 the result is a note-off on that channel carrying note and velocity |
| `Midi.NoteOn` | modo.hh:485-487 | for channels below 16 the result is a note-on on that channel carrying note and velocity |
| `Midi.DefaultIsNoEvent` | modo.hh:480 | the default event is no event and no note message |
| `Midi.ClockIsNotANote` | modo.hh:549 | the timing clock 0xF8 is an event but no note message |
| `Midi.NoteMessagesRoundTrip` | modo.hh:482-499 | every note message is rebuilt exactly from its note, velocity and channel |
| `Midi.SilentNoteOnIsNoteOn` | modo.hh:485-496 | a note-on with velocity 0 is still a note-on |
| `Midi.WideChannelSpills` | modo.hh:482-487 | a note-off built for channel 16 is a note-on |
| `CStrings.CharAt` | modo.hh:418 | reading a C string yields its character, or the terminator from its length on |
| `CStrings.DigitValue` | modo.hh:423 | `c - '0'` of a digit is its value 0…9 |
| `NotePatterns.New` | modo.hh:602 | a new sequencer starts at clock 0 of its pattern |
| `NotePatterns.VelocityOf` | modo.hh:609 | a digit step strikes at `(c - '0') * 15`, at most 120 |
| `NotePatterns.Process` | modo.hh:603-629 | non-clock input leaves the sequencer alone and emits nothing; a clock advances t round the cycle |
| `NotePatterns.ClockAdvances` | modo.hh:611-618 | a clock moves t to `(t + 1) mod 6·length` |
| `NotePatterns.NoteOnFollowsScore` | modo.hh:606-610 | a clock emits a note-on exactly on the first clock of a digit step, with that digit's velocity |
| `NotePatterns.NoteOffFollowsScore` | modo.hh:613-622 | a clock emits a note-off exactly on the last clock of a non-space step not followed by '-', at velocity 127 |
| `NotePatterns.OnlyNoteEvents` | modo.hh:604-628 | every emitted event is a note-on or a note-off; anything else is the default event |
| `NotePatterns.TicksAdvance` | modo.hh:603-629 | after n clocks t is n positions further round the cycle, and event k is that of position t + k |
| `NotePatterns.TicksFollowScore` | modo.hh:603-629 | over any run, event k is a note-on or note-off exactly where the score starts or ends a note |
| `NotePatterns.CycleReturns` | modo.hh:616-618 | a whole cycle of clocks brings the sequencer back to its state |
| `NotePatterns.TiedPatternScore` | modo.hh:613-622 | "0-- -" starts a note at clock 0 and ends notes at clocks 17 and 29 |
| `Patterns.New` | modo.hh:636 | a new pattern has its lanes and an empty queue of one slot per lane |
| `Patterns.Keep` | modo.hh:640 | only events that are present are queued, in order |
| `Patterns.FireLanes` | modo.hh:638-643 | every lane steps once on the same input, and the present events are queued in lane order |
| `Patterns.Process` | modo.hh:637-648 | every lane steps once; one queued event comes out if any is pending, otherwise the default event with the queue left empty |
| `Patterns.ProcessIsFifo` | modo.hh:637-648 | while the queue has room a call queues this call's events after the pending ones and releases the oldest |
| `Patterns.QuietLanes` | modo.hh:605 | no lane emits or moves on a call that is not a timing clock |
| `Patterns.EmptyQueueHasRoom` | modo.hh:634-643 | from an empty queue one call never overflows: at most one event per lane |
| `Patterns.QuietCallsDrain` | modo.hh:644-647 | calls without a clock release the queued events oldest first, then the default event |
| `Patterns.QuietCall` | modo.hh:644-647 | one call without a clock keeps the lanes and releases the oldest queued event, if any |
| `Patterns.PutIntoFullQueueOverwritesOldest` | modo.hh:52-61 | putting into a full queue overwrites the oldest pending element |
| `Patterns.BackToBackClocksOverflow` | modo.hh:637-648 | two lanes that end and restart notes on back-to-back clocks overflow the two-slot queue |
| `Envelope.Trigger` | modo.hh:663-673 | events never change the level, and only a note-on or a note-off for the held note change anything |
| `Envelope.Advance` | modo.hh:674-694 | attack goes on to decay, release to sustain, decay stays and sustain holds; sane knobs keep the level in [0, 1]; an attack step below the peak adds one rise, and entering decay sets the level to exactly 1; a decay step shrinks the distance to sustain by the decay factor; a release step above 0 subtracts one fall, and entering sustain sets the level to exactly 0 |
| `Envelope.Process` | modo.hh:662-696 | the output is the new level, and with sane knobs it lies in [0, 1] |
| `Envelope.NoteOnFromRestAttacks` | modo.hh:663-668 | a note-on with no note held restarts the attack from the current level |
| `Envelope.NoteOnWhileHeldSlides` | modo.hh:663-669 | a note-on while a note is held only changes the note |
| `Envelope.NoteOffReleasesOnlyHeldNote` | modo.hh:670-673 | a note-off for the held note starts the release; a note-off for any other note is ignored |
| `Envelope.NoteZeroIsRest` | modo.hh:664 | note 0 reads as no note held |
| `Envelope.RunStaysInRange` | modo.hh:662-696 | with sane knobs every level ever output lies in [0, 1] |
| `Envelope.QuietRunCoasts` | modo.hh:663-673 | events that are not note messages only advance the stages |
| `Envelope.DecayIsGeometric` | modo.hh:682-684 | in decay the distance to the sustain level shrinks by the decay factor every sample |
| `Envelope.AttackEnds` | modo.hh:675-684 | once n rises cover the distance to 1, some sample m <= n enters decay with the level exactly 1, and the envelope is in decay after n samples |
| `Envelope.ReleaseEnds` | modo.hh:687-693 | the release reaches sustain at level 0 once enough falls cover the level |
| `Envelope.SustainHolds` | modo.hh:685-686 | sustain without events never changes |
| `Control.Slide` | modo.hh:561-583 | a note-on retargets, and from rest jumps to the pitch; a note-off for the held note clears it; the frequency never overshoots its target |
| `Control.GlideApproaches` | modo.hh:577-581 | between note-ons the frequency never moves away from its target |
| `Control.ArrivedStays` | modo.hh:577-581 | a frequency on its target with factor 1 stays there |
| `Control.GlideArrives` | modo.hh:577-581 | an upward glide lands exactly on its target once the accumulated factor covers the gap |
| `Control.GlideArrivesDown` | modo.hh:577-581 | a downward glide (0 < factor < 1) lands exactly on its target once the accumulated factor covers the gap |
| `Control.HeldStays` | modo.hh:577-581 | an arrived frequency holds over any number of samples |
| `Control.Strike` | modo.hh:589-594 | the level stays non-negative, and at most 1 for seven-bit data |
| `Control.StrikesRememberLastNoteOn` | modo.hh:590-593 | after any events the level is the velocity of the last note-on, or the start level if there was none |
| `Control.LastStruckOfCons` | modo.hh:590-593 | reading the last note-on from the end agrees with reading the stream from the front |
| `Automation.ParseNumber` | modo.hh:415-436 | parse_number only moves the cursor forward and stays within the text |
| `Automation.ScanIntStops` | modo.hh:422-425 | the integer loop stops on the first non-digit and moves exactly when it starts on a digit |
| `Automation.ParseNumberStops` | modo.hh:415-436 | parse_number stops on a non-digit, and moves exactly when the text starts with '-', '.' or a digit |
| `Automation.ScanIntReadsDigits` | modo.hh:422-425 | the integer loop reads a digit run as its decimal value |
| `Automation.ScanFracReadsDigits` | modo.hh:426-434 | the fraction loop adds each digit at its place after the point |
| `Automation.ParseNumberReadsNumeral` | modo.hh:415-436 | a signed decimal numeral followed by a separator reads back as its value, the cursor ending after it |
| `Automation.SkipSpace` | modo.hh:437-441 | the cursor passes exactly the run of spaces |
| `Automation.New` | modo.hh:443 | a new automation is at the script's start, value 0, ending a segment on the first call |
| `Automation.Reset` | modo.hh:468-473 | reset gives exactly a freshly constructed automation |
| `Automation.Truncate` | modo.hh:452 | the float-to-int conversion truncates toward zero |
| `Automation.NextSegment` | modo.hh:447-464 | at the end of the script the value is held with slope 0 |
| `Automation.Process` | modo.hh:444-467 | inside a segment a call adds the slope and counts down, and reads nothing |
| `Automation.Glides` | modo.hh:444-448 | inside a segment n calls add the slope n times |
| `Automation.HoldSetsValue` | modo.hh:448-460 | a numeral without '/' at a segment end sets the value exactly |
| `Automation.HoldSegment` | modo.hh:448-460 | a hold sets the value with slope 0, a one-call segment, and the cursor past the spaces |
| `Automation.RampSegment` | modo.hh:448-460 | `x/d` starts a ramp of `d / DT` samples whose slope reaches x |
| `Automation.RampArrives` | modo.hh:444-464 | the calls before the last one glide; the last call computes the target exactly; it outputs the target unless a hold follows, in which case it outputs the hold's number |
| `Automation.RampArrivesAtEnd` | modo.hh:444-464 | a ramp that ends the script lands exactly on its target and holds it |
| `Automation.ExhaustedHolds` | modo.hh:462-464 | once the script is used up the value never changes |
| `Automation.ResetReplays` | modo.hh:468-473 | after reset the automation replays its script from the start |
| `Automation.KickPitchScript` | examples/kick.cc:10 | the kick's pitch holds 130 for two calls, then ramps to exactly 45 over 4410 samples |
| `Automation.KickPitchReads` | examples/kick.cc:10 | "130 45/.1" reads as a hold of 130 followed by a ramp to 45 over 0.1 s |
| `Automation.SnareEnvelopeScript` | examples/snare.cc:9 | the snare envelope holds 0 for two calls, then rises in eight equal steps to 1.3 |
| `Automation.SnareEnvelopeReads` | examples/snare.cc:9 | "0 1.3/.0002 .15/.05 0/.05" reads as a hold of 0, a ramp to 1.3 and a ramp to .15 |
| `Graph.NewNode` | modo.hh:151 | a new node has stamp 0 and the default value |
| `Graph.Get` | modo.hh:156-162 | get stamps the node with t and returns its memo; at its own stamp it answers without changing anything |
| `Graph.Read` | modo.hh:135-137 | a constant input reads its value and changes nothing |
| `Graph.Pull` | modo.hh:174-183 | pulling the inputs gives one value per socket and only stamps units |
| `Graph.GetIdempotent` | modo.hh:156-162 | asking again in the same tick answers from the memo and changes nothing |
| `Graph.NewTickRunsStepOnce` | modo.hh:156-162 | at a new tick the step runs once, on the node's state and its pulled inputs |
| `Graph.TickSettles` | modo.hh:157-158 | a unit already stamped with t is never touched again at t |
| `Graph.ProducesAtMostOncePerTick` | modo.hh:156-162 | within one tick each unit produces at most once, whatever is pulled later |
| `Graph.FreshNodeAtZero` | modo.hh:151-162 | a fresh node asked for tick 0 answers its default value without producing |
| `Graph.SelfLoopDelays` | modo.hh:157-159 | a node fed by its own output reads the value of its previous tick |
| `Graph.PullInOrder` | modo.hh:174-176 | inputs are pulled in declaration order: a split list is the first part, then the second |
| `Graph.ConstantsPullThemselves` | modo.hh:127-137 | constant inputs read their constants and leave the graph alone |
| `Graph.Connect` | modo.hh:128-134 | connect rebinds exactly one socket and changes nothing else |
| `Graph.ConnectWaitsForNextTick` | modo.hh:128-134 | a rebinding is not seen until the node's next tick |
| `Graph.ConnectConstantIsRead` | modo.hh:131-134 | after binding a constant, the node's next computation sees that constant |

## Left out

- Osc, Saw, Square, the standalone LowPass class, Resonator and MIDIClock's tempo accumulator are left out. They are oscillators and filters outside the modelled core; only MIDIClock's 0xF8 status is used.
- Noise, Random and Xorshift128plus are left out: they are pseudo-random generators outside the modelled core.
- WAVOutput, alsa.hh and leslie.hh are left out: they are file and device output and an effect outside the modelled core.
- Floating-point rounding is not modelled. Every `float` is an exact real, so the results are those of exact arithmetic.
- `std::pow` values are passed in as parameters. These are the equal-tempered pitch and glide factor of Frequency and the decay factor of ADSR; the model does not compute powers.
- `Automation.Process`: `t` is an unbounded integer. The 32-bit wrap-around of modo's `int t` after a negative ramp duration is not modelled.
- `Automation.NextSegment`: a ramp shorter than one sample is an error result. modo divides by a zero sample count and runs on with an infinite or undefined slope.
- `Queues.Take`: requires a non-empty queue. modo's callers check `is_empty` first; on an empty queue modo's `size` would wrap around.
- `NotePatterns.New`: requires a non-empty pattern without NUL. With an empty pattern modo reads past the terminator.
- NodeInfo's compile-time reflection is replaced by explicit socket lists.
- Node2's per-type `process` signature is replaced by one step function shared by every unit of an arena.
- `Node::produce` pulls inputs in whatever order user code chooses; the model pulls them in declaration order.
- External `Value` objects and links from one `Input` to another are not modelled. A socket is either a constant or a link to a unit.
- Uninitialised members get explicit starting values: Node2's `t`, Frequency's frequency and target, and Velocity's level.
