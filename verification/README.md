# Verified model of an LMS player

A Dafny model of the three parts of this Slim Protocol player whose correctness is hard to see by
reading: the two-thread stream buffer, the wire codec, and the pumps that feed decoded audio to the
three audio outputs. `dafny verify dfyconfig.toml` checks everything.

**The stream buffer** (`SlimBufferCore`, `SlimBufferSystem`, `SlimBufferSafety`, `SlimBufferTheorems`).
`SlimBuffer` reads ahead on a fill thread into a shared queue; a consumer moves up to 8 KiB at a time
into a private staging area. `SlimBufferCore` is the data and the body of each section that runs under
the state lock, as a class with one method per section, each proved against a function on the data.
`SlimBufferSystem` is the protocol: a program counter per thread, one step per locked section, and
separate steps for parking on a condition variable, the unlocked read, and each notification, so that
everything can happen in between. Spurious wakeups, every read size, transient errors, fatal errors and
the end of the source are all steps. `SlimBufferSafety` proves one invariant over all of it and
`SlimBufferTheorems` draws the results: no byte is lost, duplicated or reordered; no wakeup is lost and
the two threads never sleep together; every call returns after a bounded number of steps, transient
errors and spurious wakeups aside; `drop` stops the fill thread within three of its steps; the end and
a fatal error are reported once, last and in that order; the reported status is honest; the threshold
callback fires once.

**The wire codec** (`Bytes`, `Utf8`, `ServerMessages`, `ServerCodec`, `ClientMessages`, `Framing`, `Frames`,
`Discovery`, `WireFormat`). Payload layouts by offset, the parser that consumes a payload field by field, and the
missing inverses: a reference encoder for server messages and a reference decoder for client
messages. `Framing` is the receiving side for any message parser, and proves that how a stream of good
frames is cut into reads never matters and exactly what is delivered before a bad one. `Frames` is the
receiver with the server's parser and the partial-write sender. `Discovery` is the TLV decoder.
`WireFormat` pins all of them to the wire in numbers and characters: tags, field tables, offsets, units,
limits and byte order. `Utf8` ties validity to the encoding of Unicode scalar values.

**The pumps** (`Arith`, `Decoder`, `SkipLoop`, `SkipTheorems`, `PulseOut`, `PipewireOut`, `PlayClock`,
`RodioOut`, `Headers`, `HeaderTheorems`).
The decoder is a list of outcomes still to come (packets, retries, stream errors, then a sticky end).
Each output is a state machine driven by the audio server, which chooses when callbacks run, how much
they ask for and what the clock shows; each callback is also written as a class method with its loops
and proved equal to the step of the state machine. `SkipLoop` is the fill-and-skip loop that PipeWire
and rodio share; `SkipTheorems` says exactly when it hangs, when it drops whole frames and how many
errors it reports. `PlayClock` is PipeWire's position clock. `Headers` strips HTTP headers through a
reader that shows the stream in arbitrary slices, and folds the calls the loop makes into a state;
`HeaderTheorems` follows that state over every run of the two-thread buffer.

## What the model found

- A skip past the end of a track makes the PipeWire and rodio loops go round for ever: nothing is
  left, the skip is still positive, and the buffer is empty. `SkipLoop.HangIsForever` shows the loop is
  stuck, `SkipTheorems.LoopHangsIff` that it gets there if and only if the skip is longer than the whole
  milliseconds of the successive fills (`WholeMs`, which does not depend on the skip).
  `PipewireOut.CallbackHangsIff` and `RodioOut.ReturnsIff` carry this to the callbacks, and
  `SkipTheorems.WhenSkipHangs` bounds it however the packets are cut: never with `d + n` ms of audio left
  for a skip of `d` ms over `n` packets, always with less than `d`.
- A skip need not drop whole frames, because the loop converts milliseconds to samples once per fill and
  takes off the request what each fill lasts, floored. `SkipTheorems.SkipKeepsFramesIff` proves that it
  drops whole frames if and only if the milliseconds left for the fill it does not empty convert to whole
  frames. `RodioOut.SkipCanSwapChannels` is a 110 ms skip of 44.1 kHz stereo at rodio's own limit: 9702
  samples in one conversion, an odd 9745 as the loop serves it, so left and right change places.
- A pause can be counted as played. `pause` clears the anchor of the PipeWire clock, and a process
  callback that still runs before `unpause` sets it again, so the next one counts the whole gap:
  `PlayClock.PausedReadingCounts` is five seconds of it. `PlayClock.PausedTimeIsNotCounted` proves that
  the reading after `unpause` reports the position at the pause, and the skips since, for every later tick
  if and only if no callback read the clock before the call to `unpause`.
- A skip served by a callback that cannot read the PipeWire clock is lost from the reported position
  when a pause follows (`PlayClock.UnreadSkipIsForgotten`). `PlayClock.PositionReported` proves the
  reported position is the time between pauses and the skips seen, all of them exactly when none is
  waiting for a reading or was lost this way; when no callback reads the clock while paused, that time is
  the time played.
- `with_capacity` sets the status block's buffer size but not its fullness, and the player shares one
  block between streams, so until the first commit the fullness reported is the previous stream's.
  `SlimBufferTheorems.BoundedAndHonest` proves the fullness is right exactly when something has been
  committed or the block started at zero.
- A frame that parses as `Error` discards the good messages that became complete in the same read, and
  one with a payload under four bytes makes the parser panic, with the same loss.
  `Framing.ErrorFrameEndsSession` and `Framing.ShortFrameEndsSession` prove that delivered are exactly
  the frames completed by earlier reads: all of the good ones if and only if those reads had brought them
  all. `Frames.GoodMessageLost` is one message lost in one read and delivered in two. A frame without any
  payload panics only once another byte has followed (`Framing.EmptyFrameWaits`).
- A header line longer than 8192 bytes ends the headers, and so does the end of the stream: the headers
  after a long line are fed to the decoder (`Headers.LongLineEndsHeaders`, `Headers.CutShort`).
- After a stream error PulseAudio sends `EndOfDecode` (`PulseOut.OnWriteWhileRunning`) and PipeWire does
  not (`PipewireOut.NotSupportedPerError`). Rodio does when no skip is pending
  (`RodioOut.ErrorEndsDecoding`); inside a skip whose next fill succeeds it goes on decoding
  (`RodioOut.DecodingGoesOn`).
- The skip loop goes on past a stream error, so `NotSupported` can be sent more than once
  (`PipewireOut.NotSupportedTwice`): once for each error met, and at most once without a skip
  (`SkipTheorems.LoopReportsErrors`). No skip that returns sends it more than once if and only if at most
  one error is in reach, that is, up to the last fill that lasts a millisecond, or the next when that one
  lasts exactly its whole milliseconds (`SkipTheorems.ReturningReportsOnceIff`). With skips that hang
  counted too, it is at most once if and only if the stream holds at most one error
  (`SkipTheorems.ReportedOnceIff`).
- A client message reads back exactly when its event code has four bytes, its times are below 2^32 ms,
  its language characters are below 256 and its body fits the length field
  (`ClientMessages.RoundTripIff`); otherwise the serializer silently sends something else.

## Assumptions

`Read` and `Write` return no more than the slice they were given, and locks are not poisoned. Integers
are unbounded except where a width matters: status fields, lengths on the wire, and the position cells
with their saturating and wrapping operations. Products of sample rate, channels and duration are taken
not to overflow 64 bits.

## Model

| member | source | states |
|---|---|---|
| SlimBufferCore.SlimBuffer.WithCapacity | lms-proto/src/buffer.rs:88-132 | The capacity is the request raised to the threshold and to at least one; the buffer starts empty and the status block keeps its old fullness and byte count. |
| SlimBufferCore.SlimBuffer.Room | lms-proto/src/buffer.rs:196-205 | Park, stop, or read up to a positive amount that fits both the chunk and the free room. |
| SlimBufferCore.SlimBuffer.Commit | lms-proto/src/buffer.rs:210-245 | A committed read is appended; the end, transient and fatal outcomes and shutdown change exactly what they should. |
| SlimBufferCore.SlimBuffer.Refill | lms-proto/src/buffer.rs:148-173 | Staging and buffer together hold what the buffer held; drained exactly when staging has bytes; an error is taken once, only with nothing left. |
| SlimBufferCore.SlimBuffer.Stage | lms-proto/src/buffer.rs:141-146 | Clears a used-up staging area without losing staged bytes. |
| SlimBufferCore.SlimBuffer.Take | lms-proto/src/buffer.rs:176-181 | The bytes handed out and those still staged are the bytes staged before; position and byte count advance by as many. |
| SlimBufferCore.SlimBuffer.Shutdown | lms-proto/src/buffer.rs:288-292 | Sets shutdown and nothing else. |
| SlimBufferSafety.InvKept | lms-proto/src/buffer.rs:141-297 | Every step of either thread keeps the protocol invariant. |
| SlimBufferSafety.InvAlong | lms-proto/src/buffer.rs:141-297 | The invariant holds in every state of every run. |
| SlimBufferSafety.WakeupsKept | lms-proto/src/buffer.rs:148-172 | A sleeping thread with something to do stays about to be woken, under every step. |
| SlimBufferSafety.ConsumerMovesBytes | lms-proto/src/buffer.rs:165-174 | Consumer steps move bytes between delivered, staged and buffered without changing their order. |
| SlimBufferSafety.ConsumerRecords | lms-proto/src/buffer.rs:157-163 | What the caller is told about the end is true when it is told. |
| SlimBufferTheorems.StreamIntegrity | lms-proto/src/buffer.rs:141-286 | Until shutdown, delivered, staged, buffered and in-flight bytes are exactly the bytes pulled, in order; the caller always holds a prefix. |
| SlimBufferTheorems.FillBufShowsNext | lms-proto/src/buffer.rs:276-286 | fill_buf shows what comes next in the stream, and nothing only at its end; consume takes a prefix of it. |
| SlimBufferTheorems.CallsMoveExactly | lms-proto/src/buffer.rs:261-286 | A read returns and delivers the first min(len, staged) bytes, a consume takes the first min(amt, staged), fill_buf shows all that is staged and takes none. |
| SlimBufferTheorems.SectionsMoveExactly | lms-proto/src/buffer.rs:148-204 | A refill moves the first min(8192, buffered) bytes to staging; the fill thread asks the source for min(8192, room) and parks exactly when there is none. |
| SlimBufferTheorems.EofIff | lms-proto/src/buffer.rs:215-242 | The buffer is at its end exactly when zero bytes or a fatal error of the source was committed; transient errors never end it. |
| SlimBufferTheorems.BoundedAndHonest | lms-proto/src/buffer.rs:165-226 | Buffer plus reserved room never exceeds the capacity; byte count exact mod 2^64; fullness exact if and only if something was committed or the block was fresh. |
| SlimBufferTheorems.NoLostWakeup | lms-proto/src/buffer.rs:196-246 | A parked thread that could go on is about to be notified; the threads never park together, nor one for a thread that is gone. |
| SlimBufferTheorems.NoDeadlock | lms-proto/src/buffer.rs:148-172 | While a call is under way some thread can take a step that needs no luck. |
| SlimBufferTheorems.FillCanMove | lms-proto/src/buffer.rs:184-258 | A consumer that waits, waits for a fill thread that can move. |
| SlimBufferTheorems.ProperStepLowersRank | lms-proto/src/buffer.rs:141-258 | Every step other than a spurious wakeup, a new call or a transient error lowers a rank. |
| SlimBufferTheorems.StepMovesRank | lms-proto/src/buffer.rs:141-258 | A proper step lowers the rank; a spurious wakeup or a transient error raises it by at most six. |
| SlimBufferTheorems.EveryCallReturns | lms-proto/src/buffer.rs:261-297 | Over any path without new calls, steps plus the rank left are at most the rank at the start plus seven for each spurious wakeup or transient error; when no proper step is left the call has returned. |
| SlimBufferTheorems.StepAfterShutdown | lms-proto/src/buffer.rs:196-213 | After shutdown no step changes shared data or starts a read, and each fill step comes closer to the end. |
| SlimBufferTheorems.ShutdownStops | lms-proto/src/buffer.rs:288-297 | From any state the fill thread takes at most three more steps and finishes at most the read it was in. |
| SlimBufferTheorems.JoinCompletes | lms-proto/src/buffer.rs:294-296 | join is enabled exactly when the fill thread has stopped, and until then the thread can step. |
| SlimBufferTheorems.EndAndErrors | lms-proto/src/buffer.rs:149-163 | The end is told only when everything pulled was delivered; the error comes first, once, and only empty answers follow. |
| SlimBufferTheorems.CallbackFollowsCrossing | lms-proto/src/buffer.rs:215-253 | The callback has fired or is due exactly when some commit reached the threshold or the end. |
| SlimBufferTheorems.ThresholdCallback | lms-proto/src/buffer.rs:248-257 | At most once, never before a crossing, and once when the fill thread finishes by end or error. |
| ServerMessages.Parse | lms-proto/src/messages.rs:234-466 | Consuming the payload field by field gives the message its layout says, and no read passes the end of any payload of four bytes or more. |
| ServerMessages.ParseStream | lms-proto/src/messages.rs:274-388 | The 24 bytes the guard checks are enough for every field of the stream form. |
| ServerMessages.ParseChoices | lms-proto/src/messages.rs:275-329 | The first six choices are read in order; any unknown one refuses the message. |
| ServerMessages.ParseSettings | lms-proto/src/messages.rs:331-354 | Threshold, S/PDIF, transition, flags and output threshold are read in order with their units. |
| ServerMessages.ParseStrm | lms-proto/src/messages.rs:262-418 | Each sub-command takes its time from bytes 14 to 17; unknown ones are named. |
| ServerMessages.ParseServ | lms-proto/src/messages.rs:245-260 | Address, then an optional group whose bytes are characters. |
| ServerMessages.ParseAudg | lms-proto/src/messages.rs:430-439 | Two gains after ten unused bytes. |
| ServerMessages.ParseSetd | lms-proto/src/messages.rs:441-461 | Query, name without its terminator, DAC off, or unrecognised. |
| ServerMessages.TagIsExact | lms-proto/src/messages.rs:241-244 | Matching the lossily decoded tag is matching its bytes. |
| ServerCodec.RoundTrip | lms-proto/src/messages.rs:234-466 | Parsing the reference encoding of any representable message gives the message. |
| ServerCodec.ParsedIsRepresentable | lms-proto/src/messages.rs:234-466 | Every payload is refused, unrecognised, or read as a representable message. |
| ServerCodec.RepresentableIff | lms-proto/src/messages.rs:194-230 | A message is representable if and only if some payload parses to it. |
| Utf8.LossyKeepsValid | lms-proto/src/messages.rs:364-368 | Valid header text survives the lossy conversion unchanged. |
| Utf8.LossyIsValid | lms-proto/src/messages.rs:364-368 | Whatever the bytes, the header string is valid UTF-8. |
| Utf8.ValidIff | lms-proto/src/messages.rs:451-452 | A byte string is valid exactly when it encodes some list of Unicode scalar values. |
| Utf8.LossyReplaces | lms-proto/src/messages.rs:364-368 | Where a text breaks, the longest beginning of an encoding, or one byte, becomes EF BF BD and the text goes on. |
| Utf8.Latin1RoundTrip | lms-proto/src/messages.rs:251-252 | A sync group's bytes can be recovered from its string. |
| Utf8.LatinIsScalar | lms-proto/src/messages.rs:251-252 | The string of a byte is that byte as a Unicode scalar value. |
| Bytes.MostSignificantFirst | lms-proto/src/messages.rs:250 | Two and four bytes denote numbers with the first byte most significant. |
| WireFormat.TagsSpelled | lms-proto/src/messages.rs:245-459 | Every tag and text on the wire, as characters. |
| WireFormat.FormatTables | lms-proto/src/messages.rs:275-291 | Autostart and format read exactly their characters, in order, and refuse every other byte. |
| WireFormat.SampleTables | lms-proto/src/messages.rs:293-329 | So do sample size, channels and byte order. |
| WireFormat.RateTable | lms-proto/src/messages.rs:302-315 | So does the sample rate, with its ten rates. |
| WireFormat.OutputTables | lms-proto/src/messages.rs:333-349 | So do S/PDIF and the transition. |
| WireFormat.FlagBits | lms-proto/src/messages.rs:351 | Flags are kept exactly when only bits 7, 6, 1 and 0 are set, else dropped. |
| WireFormat.ServOnWire | lms-proto/src/messages.rs:245-260 | Address bytes in order, then the group. |
| WireFormat.AudeOnWire | lms-proto/src/messages.rs:421-428 | Any byte but zero is on. |
| WireFormat.AudgOnWire | lms-proto/src/messages.rs:430-439 | Two big-endian gains after ten bytes. |
| WireFormat.SetdOnWire | lms-proto/src/messages.rs:441-461 | Query, name without its last byte or empty when not UTF-8, DAC off, and the report of any other. |
| WireFormat.TimedOnWire | lms-proto/src/messages.rs:267-416 | Each sub-command by its character, its time fourteen bytes into the body. |
| WireFormat.UnknownCommand | lms-proto/src/messages.rs:412-417 | Any other sub-command is reported as strm_ and its character. |
| WireFormat.StreamOnWire | lms-proto/src/messages.rs:274-388 | Every field of a stream command whose bytes are all different, and any headers. |
| WireFormat.ShortStrm | lms-proto/src/messages.rs:262-265 | A strm body under 24 bytes is an error. |
| WireFormat.ShortAudg | lms-proto/src/messages.rs:430-433 | An audg body under 18 bytes is an error. |
| WireFormat.DecimalDenotes | lms-proto/src/messages.rs:459 | The number reported is in decimal digits without leading zeros. |
| ClientMessages.Serialize | lms-proto/src/messages.rs:38-113 | Appending the fields and splicing the length in gives tag, length and body. |
| ClientMessages.FirstFrame | lms-proto/src/messages.rs:108-111 | The length field delimits exactly one message of a stream. |
| ClientMessages.RoundTripIff | lms-proto/src/messages.rs:38-113 | A message decodes to itself if and only if it is representable. |
| ClientMessages.StreamRoundTrip | lms-proto/src/messages.rs:38-113 | Any concatenation of representable messages splits back into the same list. |
| ClientMessages.EncodingIsInjective | lms-proto/src/messages.rs:38-113 | Two lists with the same bytes are the same list. |
| WireFormat.LengthOnWire | lms-proto/src/messages.rs:108-111 | The length field is the body's length modulo 2^32, never below zero. |
| WireFormat.StatOnWire | lms-proto/src/messages.rs:73-99 | A status report of 61 bytes, field by field; a time that does not fit is zero. |
| WireFormat.HeloOnWire | lms-proto/src/messages.rs:46-67 | A greeting, field by field; only the low byte of a language character. |
| WireFormat.ByeOnWire | lms-proto/src/messages.rs:69-72 | BYE!, length one, the value. |
| WireFormat.NameOnWire | lms-proto/src/messages.rs:101-105 | SETD, the length, a zero byte and the name. |
| WireFormat.FrameOnWire | lms-proto/src/frames.rs:87-105 | Two length bytes, most significant first, and the payload. |
| Framing.ScanFrames | lms-proto/src/frames.rs:81-120 | One-shot scanning of framed payloads gives their messages and leaves the incomplete tail. |
| Framing.ScanAppend | lms-proto/src/frames.rs:87-117 | Scanning can stop at any byte and resume with what was left. |
| Frames.LmsRecv.Decode | lms-proto/src/frames.rs:81-120 | Cuts every complete frame off the buffer, as the one-shot scan does, with its error outcomes. |
| Frames.LmsRecv.Receive | lms-proto/src/frames.rs:40-79 | Returns at the first non-empty batch, riding over transient errors; LostConnectionEndsSession says what a lost connection gives. |
| Framing.RecvMatches | lms-proto/src/frames.rs:40-120 | One call delivers the next part of the one-shot scan of everything to come. |
| Framing.RunMatches | lms-proto/src/frames.rs:40-120 | Successive calls deliver the one-shot scan, or a prefix of it before a bad frame. |
| Framing.ChunkingIndependence | lms-proto/src/frames.rs:40-120 | For any good frames, tail and split into reads: batches are the messages in order, none empty, and the tail is left. |
| Framing.RunAppend | lms-proto/src/frames.rs:40-79 | Successive calls over two parts of a connection are those over the first, then those over the second from the buffer left. |
| Framing.BadReadEndsSession | lms-proto/src/frames.rs:69-120 | At the read that meets a bad frame, delivered is exactly what the earlier reads had completed, whatever else that read brought. |
| Framing.LostConnectionEndsSession | lms-proto/src/frames.rs:46-67 | At a closed or broken connection exactly what earlier reads completed is delivered, the call ends with reset or that error, and nothing after it is read. |
| Framing.LostConnectionDelivers | lms-proto/src/frames.rs:40-79 | Over good frames, exactly the frames that had arrived. |
| Framing.ErrorFrameEndsSession | lms-proto/src/frames.rs:107-111 | With an Error frame after good ones the session ends with InvalidData; exactly the frames completed by earlier reads are delivered, all of them if and only if those reads had brought them all. |
| Framing.ShortFrameEndsSession | lms-proto/src/frames.rs:104-107 | The same for a payload under four bytes, with a panic. |
| Framing.EmptyFrameWaits | lms-proto/src/frames.rs:82-102 | An empty frame at the end of the input is not seen: the session waits with everything delivered. |
| Frames.GoodMessageLost | lms-proto/src/frames.rs:107-115 | A good message is lost when one read brings it with an Error frame, and delivered when the same bytes come in two reads. |
| Frames.UnknownIsDelivered | lms-proto/src/frames.rs:107-115 | A message with an unknown tag is delivered as unrecognised, not refused. |
| Frames.MessagesArrive | lms-proto/src/frames.rs:40-120 | Encoded, framed and cut anyhow, a list of messages arrives as that list. |
| Frames.PushWritesPrefix | lms-proto/src/frames.rs:138-171 | Under any partial writes, success means all bytes are out and failure a proper prefix. |
| Frames.SendsDecode | lms-proto/src/frames.rs:138-174 | Successive sends put out a prefix of the list's encoding, all of it exactly on success, and that decodes to the list. |
| Frames.PushGoesOn | lms-proto/src/frames.rs:141-165 | Short writes and transient errors put out exactly the bytes the connection accepted. |
| Frames.PushEndsAt | lms-proto/src/frames.rs:142-171 | A send ends with the connection's error, with a reset at a write of nothing, or with everything out, and uses no outcome after that. |
| Frames.LmsSend.Send | lms-proto/src/frames.rs:138-174 | The bytes out and the outcome are those of the write loop; a failed flush follows only a complete write. |
| Discovery.DecodeTlv | lms-proto/src/discovery.rs:92-134 | Terminates on every input within its bounds and gives the map of the entries before the first it cannot read. |
| Discovery.ReplyRoundTrip | lms-proto/src/discovery.rs:68-134 | Any well-formed entries followed by any number of zeros decode to the last-wins map. |
| Discovery.ReplyLookup | lms-proto/src/discovery.rs:68-134 | Each token looks up the last entry written under it, and no other token is present. |
| WireFormat.UnreadableIff | lms-proto/src/discovery.rs:96-127 | An entry is unreadable exactly when it is too short, starts high, is cut, has an unknown tag, or an address or port that does not parse. |
| WireFormat.ReplyStopsAt | lms-proto/src/discovery.rs:96-130 | The first unreadable entry ends the reply: the entries before it count and nothing after. |
| WireFormat.MeaningOnWire | lms-proto/src/discovery.rs:104-127 | What a value means under each tag; text that is not UTF-8 reads as empty. |
| Decoder.VibeDecoder.FillBuffer | vibe/src/decode.rs:223-268 | The fill loop stops at the limit, the end or an error, keeping what it decoded. |
| Decoder.VibeDecoder.Prefill | vibe/src/pulse_out.rs:218-237 | Prefilling keeps everything decoded across retries, in order, and reports a stream error. |
| Decoder.FillStops | vibe/src/decode.rs:253-267 | The limit is reached exactly on Ok(false), and Ok(true) only at the end of the stream. |
| Decoder.FillConserves | vibe/src/decode.rs:253-267 | A fill only appends, in stream order. |
| Decoder.FillRetryingFacts | vibe/src/pulse_out.rs:277-289 | Retrying keeps both. |
| Decoder.FillExact | vibe/src/decode.rs:253-267 | Outcomes are read only while the buffer is short of the limit, packets whole, and anything else stops the fill at once. |
| Decoder.FillRetryingExact | vibe/src/pulse_out.rs:277-289 | With retries, only the last outcome read can be a stream error, and the fill fails exactly then. |
| Decoder.DurationRoundTrip | vibe/src/decode.rs:276-284 | Milliseconds to samples and back never gains, and loses at most one millisecond from 1000 samples a second up. |
| Decoder.DurationIsWholeFramesIff | vibe/src/decode.rs:282-284 | One conversion of a duration gives whole frames if and only if it passes its last whole frame by less than one sample. |
| SkipLoop.HangIsForever | vibe/src/pipewire_out.rs:199-230 | With nothing left and skip pending, a pass changes nothing the loop looks at. |
| SkipLoop.LoopByPasses | vibe/src/pipewire_out.rs:199-230 | The loop is its first pass followed by the rest, and each further pass has less left. |
| SkipLoop.LoopConserves | vibe/src/pipewire_out.rs:215-228 | Dropped, kept and undecoded elements are the stream, in order. |
| SkipLoop.LoopEnds | vibe/src/pipewire_out.rs:200-230 | An empty buffer only at the end; the end without an error only when all is decoded. |
| SkipLoop.LoopOffset | vibe/src/pipewire_out.rs:220-223 | The position never moves by more than was asked, and by all of it to within a millisecond from 1000 samples a second up. |
| SkipLoop.LoopAmount | vibe/src/pipewire_out.rs:215-223 | What is dropped lasts at least as long as the position moved, and less than one millisecond per pass longer. |
| SkipLoop.LoopPasses | vibe/src/pipewire_out.rs:225-227 | Each pass after the first decodes something new. |
| SkipLoop.SkipServed | vibe/src/rodio_out.rs:99-107 | A skip of d ms moves the offset by d or d - 1 and drops at least d - 1 and less than d + k ms in k passes. |
| SkipTheorems.LoopHangsIff | vibe/src/pipewire_out.rs:199-230 | The loop hangs if and only if the skip is longer than the whole milliseconds of the successive fills of what is left. |
| SkipTheorems.SkipAtEndHangs | vibe/src/pipewire_out.rs:215-228 | At the end of a stream every skip hangs. |
| SkipTheorems.WholeMsLasts | vibe/src/decode.rs:276-280 | The whole milliseconds of the fills fall short of the stream's by less than one for each fill. |
| SkipTheorems.WhenSkipHangs | vibe/src/rodio_out.rs:99-107 | However the packets are cut: never hangs with d + n ms left for n packets, always with less than d. |
| SkipTheorems.LoopServes | vibe/src/rodio_out.rs:99-107 | The loop drops the fills it empties and then the samples of the milliseconds left for the next. |
| SkipTheorems.SkipKeepsFramesIff | vibe/src/pipewire_out.rs:215-228 | Whole frames are dropped if and only if the milliseconds left for the fill that is not emptied convert to whole frames. |
| SkipTheorems.LoopReportsErrors | vibe/src/pipewire_out.rs:203-208 | One report for each stream error met: at most one without a skip, all that are left when the loop hangs. |
| SkipTheorems.ReportedOnceIff | vibe/src/pipewire_out.rs:203-208 | At most one report whatever is skipped, in calls that return and calls that hang, if and only if the stream holds at most one error. |
| SkipTheorems.ReturningReports | vibe/src/pipewire_out.rs:200-228 | A skip that returns reports no more errors than are in reach, and the longest such skip all of them. |
| SkipTheorems.ReturningReportsOnceIff | vibe/src/pipewire_out.rs:200-228 | No skip that returns gives more than one report if and only if at most one error is in reach. |
| SkipTheorems.TwoErrorsInOneSkip | vibe/src/rodio_out.rs:87-107 | Two errors and then a packet: a skip that returns reports both. |
| PulseOut.PulseTrack.OnWrite | vibe/src/pulse_out.rs:260-340 | The write callback is the step of the state machine. |
| PulseOut.PulseTrack.OnUnderflow | vibe/src/pulse_out.rs:351-357 | The underflow callback is the step of the state machine that UnderflowSays describes. |
| PulseOut.UnderflowSays | vibe/src/pulse_out.rs:351-357 | An underflow adds exactly one Drained message in the drained state and none in any other, and changes nothing else. |
| PulseOut.DrainedPerUnderflow | vibe/src/pulse_out.rs:351-357 | Over every run, as many Drained messages as underflows that came in the drained state. |
| PulseOut.LastRequestIsHonoured | vibe/src/pulse_out.rs:291-303 | The last skip request before a write is the one it seeks by, in bytes, and the next write does not seek. |
| PulseOut.PrefilledIff | vibe/src/pulse_out.rs:218-237 | Nothing starts exactly when prefilling met a stream error; else the buffer holds the limit, or all there is. |
| PulseOut.OnWriteWhileRunning | vibe/src/pulse_out.rs:275-339 | When decoding ends or fails, the same callback writes the leftover and drains; a pending skip is honoured by exactly one write. |
| PulseOut.PulseRun | vibe/src/pulse_out.rs:212-357 | Over every run: written, buffered and undecoded bytes are the stream; Draining never survives a callback; messages in order; drained without error means all was written. |
| PipewireOut.PipewireTrack.OnProcess | vibe/src/pipewire_out.rs:188-303 | The process callback, where it returns, is the step that ProcessHandsOver, ProcessEndsDecoding and ClockFollows describe. |
| PipewireOut.ProcessHandsOver | vibe/src/pipewire_out.rs:232-249 | With room for r exactly the first min(r, buffered) bytes go out and the rest stays; with no room nothing moves; with nothing buffered exactly one flush is asked for. |
| PipewireOut.DrainsIntoRoom | vibe/src/pipewire_out.rs:196-249 | After decoding every callback returns, and any number of them hand over exactly as much as they had room for in all. |
| PipewireOut.ProcessEndsDecoding | vibe/src/pipewire_out.rs:196-302 | Decoding ends exactly in the callback whose last fill fell short or which met an error, with one message for each error or one EndOfDecode. |
| PipewireOut.PrefilledIff | vibe/src/pipewire_out.rs:143-163 | Nothing starts exactly when prefilling met a stream error; else the buffer holds the limit, or all there is. |
| PipewireOut.PipewireTrack.FillAndSkip | vibe/src/pipewire_out.rs:199-230 | The callback's loop computes the shared fill-and-skip loop and the wrapped offset. |
| PipewireOut.PipewireTrack.KeepTime | vibe/src/pipewire_out.rs:252-269 | The position cells after a callback. |
| PipewireOut.PipewireTrack.Pause | vibe/src/pipewire_out.rs:405-420 | Folds the reported time into the offset and drops the anchor. |
| PipewireOut.ProcessKeeps | vibe/src/pipewire_out.rs:188-303 | One callback keeps the stream and the message order. |
| PipewireOut.PipewireRun | vibe/src/pipewire_out.rs:188-302 | Over every run: handed, skipped, buffered and undecoded bytes are the stream; EndOfDecode at most once and never after an error; flush only after the end with everything handed over. |
| PipewireOut.ClockFollows | vibe/src/pipewire_out.rs:252-269 | The position cells of any run are those of the play clock. |
| PipewireOut.TrackPosition | vibe/src/pipewire_out.rs:401-420 | The reported duration of a track is its segments between pauses plus the skips its callbacks reported; with no reading while paused, its stretches of play plus these. |
| PipewireOut.SkipInCallback | vibe/src/pipewire_out.rs:215-228 | A skip of d ms tells the clock d or d - 1 and drops at least d - 1 and less than d + k ms of bytes. |
| PipewireOut.CallbackHangsIff | vibe/src/pipewire_out.rs:196-230 | A callback never returns if and only if it is still decoding and asked to skip more than the whole milliseconds of the fills left. |
| PipewireOut.NotSupportedPerError | vibe/src/pipewire_out.rs:203-208 | One NotSupported for each stream error the callback meets, at most one without a skip; EndOfDecode only with none. |
| PipewireOut.NotSupportedTwice | vibe/src/pipewire_out.rs:203-228 | A skip of one millisecond that meets two stream errors sends NotSupported twice. |
| PlayClock.PositionReported | vibe/src/pipewire_out.rs:252-269 | Duration is the segments between pauses plus the skips seen, and the full position if and only if no skip is waiting or lost; with no reading made while paused the segments are the stretches of play. |
| PlayClock.ReadableClockSeesSkips | vibe/src/pipewire_out.rs:253-268 | With a readable clock in every callback no skip is lost. |
| PlayClock.NeverGoesBack | vibe/src/pipewire_out.rs:261-268 | The reported duration never decreases over any events, saturated or not. |
| PlayClock.PausedTimeIsNotCounted | vibe/src/pipewire_out.rs:257-267 | After a pause and a call to unpause, the first reading reports the position at the pause and the skips since, at every later tick, if and only if no callback read the clock before the call to unpause. |
| PlayClock.QuietPauseKeepsPosition | vibe/src/pipewire_out.rs:408-415 | After a pause without readings or skips the first reading, at any tick, reports the position at the pause. |
| PlayClock.PausedReadingCounts | vibe/src/pipewire_out.rs:257-267 | One callback after the call to pause makes five seconds of pause count as played. |
| PlayClock.UnreadSkipIsForgotten | vibe/src/pipewire_out.rs:414-415 | A skip whose callback could not read the clock is forgotten by a pause. |
| PlayClock.ElapsedIsExact | vibe/src/pipewire_out.rs:262-266 | Without saturation the elapsed time is the exact floor. |
| PlayClock.ElapsedAtTheEdges | vibe/src/pipewire_out.rs:261-266 | A tick before the anchor counts as none, a zero numerator or denominator as one, an overflowing product as the largest number. |
| PlayClock.ReadingUpdates | vibe/src/pipewire_out.rs:222-268 | What a callback does to the three cells, readable clock or not, first reading or not. |
| RodioOut.DecoderSource.Next | vibe/src/rodio_out.rs:71-134 | The iterator step, where it returns, is the step that NextServesOnce describes. |
| RodioOut.NextServesOnce | vibe/src/rodio_out.rs:71-134 | Under 4096 samples while decoding goes on, a call takes the request and serves it once in fills of 8192; otherwise it leaves it; then it yields the first sample or says Drained; its messages in order. |
| RodioOut.NothingMoreIsSkipped | vibe/src/rodio_out.rs:79-107 | With no request pending and none made, no call drops anything: only the first refill after a request does. |
| RodioOut.RequestReplaces | vibe/src/rodio_out.rs:79 | A request replaces the one pending and changes nothing else. |
| RodioOut.DecoderSource.FillAndSkip | vibe/src/rodio_out.rs:78-114 | The refill loop computes the shared fill-and-skip loop. |
| RodioOut.NextKeeps | vibe/src/rodio_out.rs:71-134 | One call keeps the stream and message order and yields a sample unless decoding ended. |
| RodioOut.RodioRun | vibe/src/rodio_out.rs:71-134 | Over every run: yielded and waiting samples are the kept part of the stream; none is returned only after EndOfDecode with everything yielded. |
| RodioOut.ReturnsIff | vibe/src/rodio_out.rs:77-114 | A call returns if and only if it needs no refill or its skip is within the whole milliseconds of the fills left. |
| RodioOut.SkipCanSwapChannels | vibe/src/rodio_out.rs:81-107 | 110 ms of 44.1 kHz stereo in packets of 2304 samples drops 9745 samples, an odd number, though one conversion is 9702. |
| RodioOut.ErrorEndsDecoding | vibe/src/rodio_out.rs:87-126 | A refill without a pending skip that meets a stream error sends NotSupported and EndOfDecode and ends decoding. |
| RodioOut.DecodingGoesOn | vibe/src/rodio_out.rs:87-114 | A skip that meets a stream error and is then served by a packet goes on decoding without EndOfDecode. |
| Headers.Reader.ReadUntilLf | vibe/src/decode.rs:331-334 | However the stream is sliced, a line is read up to its line feed. |
| Headers.Reader.SkipHeaders | vibe/src/decode.rs:330-339 | However the stream is sliced, the loop leaves what the one-shot definition says, and the calls it makes are those that Follow accepts. |
| Headers.HeadersStripped | vibe/src/decode.rs:329-339 | For any header lines of at most 8192 bytes, a blank line 13 10 and a body, exactly the body is left. |
| Headers.LongLineEndsHeaders | vibe/src/decode.rs:335 | A line of text longer than 8192 bytes ends the headers, and exactly what follows it is left. |
| Headers.BadTextRefused | vibe/src/decode.rs:334 | A line that is not UTF-8 refuses the stream. |
| Headers.CutShort | vibe/src/decode.rs:334-337 | A stream that ends among its headers is refused with its error, and without one leaves nothing. |
| Headers.BareLineFeedIsNotBlank | vibe/src/decode.rs:335-337 | A bare line feed does not end the headers. |
| HeaderTheorems.CallAgrees | vibe/src/decode.rs:330-339 | Every call of the loop keeps it in agreement with the one-shot definition on the bytes ahead. |
| HeaderTheorems.FollowsAlong | vibe/src/decode.rs:318-339 | Over every run of SlimBuffer, and whatever the source still brings, the loop's state agrees with the one-shot definition. |
| HeaderTheorems.BodyIsLeft | vibe/src/decode.rs:318-344 | Past the headers, bytes taken since, staged, buffered, in flight and still to come are exactly the body; the loop fails only where the stream is refused. |
| HeaderTheorems.ResponseIsStripped | vibe/src/decode.rs:329-344 | For any header lines of at most 8192 bytes, a blank line and a body, under any interleaving: the loop does not fail and the decoder gets exactly the body. |

## Left out

- Sockets, UDP broadcast, DNS retry, reconnecting, thread spawning and timers: input and output only.
- Symphonia, PulseAudio, PipeWire and cpal themselves: they appear as environments that choose.
- Volume and replay gain as floating point: gains are the raw 16.16 numbers on the wire.
- Parsing of dotted addresses and decimal ports in discovery replies: parameters of the decoder.
- A second queued stream sharing the PipeWire position cells, the state-change callback that resets them, and on_drained: the clock model is one stream from a fresh start.
- Output-buffer fullness reports of the three outputs: bookkeeping with no effect on the stream.
- 64-bit overflow in samples and byte counts of a skip: taken not to happen.
- `Vec` capacities: where a fill limit depends on one, the limit of each pass is arbitrary and positive.
- SlimBufferTheorems.EveryCallReturns: bounds the steps by the number of transient read errors and spurious wakeups, and does not bound these, which the environment may repeat for ever.
- PipewireOut.PipewireTrack.OnProcess: is called only where the source returns; where the skip loop hangs the model has no next state.
- RodioOut.DecoderSource.Next: is called only where the source returns, for the same reason.
- Capability strings, the HELO builder, the command line, notifications and the playing/next-up queue: no hard property.
