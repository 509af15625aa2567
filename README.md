# SDS011 protocol codec

A Dafny model of the protocol core of a Node-RED node for the SDS011 laser
particulate-matter sensor (`sds011-node.js`). The sensor talks over a
serial line in fixed frames:

- **Outbound commands** are 19 bytes: head `AA`, command class `B4`, a
  15-byte payload, an additive checksum of the payload, and tail `AB`.
- **Inbound replies** are 10 bytes: head `AA`, class `C0` (measurement) or
  `C5` (acknowledgement), six data bytes, the checksum of those six bytes,
  and tail `AB`.

The model has six modules:

- `Wrappers` (`wrappers.dfy`): the `Option` type.
- `Checksum` (`checksum.dfy`): bytes, 16-bit device ids, the
  `reduce`-based sum and the three checksum functions of the source.
- `Encoder` (`encoder.dfy`): the nine command encoders, as pure functions
  returning the frame bytes. `Decode` is an independent reader for
  outbound frames. Each encoder's contract says what its frame decodes to,
  and the lemmas `DecodeFrame` and `FrameOfDecode` show that decoding is a
  two-sided inverse of frame building.
- `Framer` (`framer.dfy`): `getNextBeginning` as a function, and the
  `serialParser` closure as the class `SerialParser`. The class has the
  accumulation buffer `serialData` as a field. Its method `Feed` is proved
  against the one-delivery function `Step`. Lemmas about `Step` and about
  `Run` (a series of deliveries) give the framing properties.
- `Interpreter` (`interpreter.dfy`): `parseMessage` as the function
  `Interpret` over an accepted frame. It yields the new device id and at
  most one `Event`. Sensor-side reply builders (`Reply`,
  `MeasurementReply`, `AckReply`) are its partners for round-trip lemmas.
- `Session` (`session.dfy`): the node's state as the class `Sds011`. Its
  fields are the module-level `deviceId` and the parser. The class has
  `ParseMessage` (the state change of `parseMessage`) and `OnData` (the
  serial data handler). It also has `HandleInput`, the input-message
  switch, which yields the frames written to the port. The module closes
  with lemmas about the frame `AA C0 96 00 50 00 34 0A 24 AB`.

Facts about the code that the model follows:

- The device id is `buffer[6] << 8 | buffer[7]` (sds011-node.js:244), so
  byte 6 is the **high** byte, although the comments at
  sds011-node.js:254-255 call byte 6 the low byte and byte 7 the high byte.
- The device id is updated for **every** accepted frame, including frames
  of an unknown command class: line 244 comes before the switch on the
  class byte.
- `setDeviceId` puts the new id in payload bytes 11 and 12, just before
  the target id (sds011-node.js:149). Payload bytes 1 to 10 are zeros.
- The frame `AA C0 96 00 50 00 34 0A 24 AB` has checksum `0x24`, because
  0x96 + 0x50 + 0x34 + 0x0A = 292, and 292 mod 256 = 0x24. With `0x2C` in
  byte 8 it is rejected, and its ten bytes are dropped
  (`CorruptedSampleDropped`).
- `calcCrcFromData` calls `reduce` with no initial value
  (sds011-node.js:352), which throws on an empty buffer. `Fold` therefore
  requires a non-empty input. Only 6- and 15-byte inputs occur.

Inputs the model takes as parameters:

- Chunks arrive as arguments of `Feed`/`OnData`, not from a serial port.
- Written frames are returned by the encoders and by `HandleInput`, not
  written to the port.
- Events are returned as `Event` values, not sent as Node-RED messages.

## Model

| member | source | states |
|---|---|---|
| Checksum.High | sds011-node.js:124 | the first byte of a padded 4-digit hex id is the id's high byte |
| Checksum.Low | sds011-node.js:124 | the second byte of a padded 4-digit hex id is the id's low byte |
| Checksum.SumSnoc | sds011-node.js:352-354 | the sum of the bytes grows by the last byte when one is appended |
| Checksum.Fold | sds011-node.js:352-354 | a reduce without initial value needs a non-empty input; it yields the sum of all the bytes, which lies between the first byte and 255 per byte |
| Checksum.CalcCrcFromData | sds011-node.js:351-357 | the checksum is the sum of all the bytes, from the first to the last, modulo 256 |
| Checksum.CalcCrcFromBuffer | sds011-node.js:359-362 | the inbound checksum is the sum of bytes 2 to 7, modulo 256 |
| Checksum.CheckCrc | sds011-node.js:364-367 | a frame passes exactly when the sum of bytes 2 to 7, modulo 256, equals byte 8 |
| Checksum.FoldSix | sds011-node.js:360 | the fold over the six data bytes is their plain sum |
| Checksum.FoldAppend | sds011-node.js:352-354 | folding a concatenation adds the folds of the two parts |
| Checksum.ChecksumCommutes | sds011-node.js:351-357 | the checksum is additive over blocks and does not depend on their order |
| Checksum.ModSum | sds011-node.js:355 | masking to 8 bits commutes with addition |
| Checksum.FoldZeros | sds011-node.js:352-354 | zero padding does not change the sum |
| Checksum.ChecksumExamples | sds011-node.js:351-367 | the checksum of FF FF is FE; that of the data bytes 96 00 50 00 34 0A is 24 |
| Encoder.IdBytes | sds011-node.js:124 | the two id bytes, read high then low, give back the id |
| Encoder.Frame | sds011-node.js:125-126 | a frame is 19 bytes: head AA, class B4, the 15 payload bytes at positions 2 to 16, the payload checksum at 17 and tail AB at 18 |
| Encoder.SetDataReportingMode | sds011-node.js:123-128 | the frame decodes to sub-command 2, set, value 0 exactly for mode 'active' and 1 otherwise, to the given id |
| Encoder.GetDataReportingMode | sds011-node.js:132-137 | the frame decodes to sub-command 2, query, all other fields zero, to the given id |
| Encoder.QueryData | sds011-node.js:140-145 | the frame decodes to sub-command 4, query, to the given id |
| Encoder.SetDeviceId | sds011-node.js:148-153 | the frame decodes to sub-command 5 with the new id in payload bytes 11-12, to the given id |
| Encoder.SetStatus | sds011-node.js:157-162 | the frame decodes to sub-command 6, set, value 0 exactly for mode 'sleep' and 1 otherwise |
| Encoder.GetStatus | sds011-node.js:165-170 | the frame decodes to sub-command 6, query, to the given id |
| Encoder.PeriodByte | sds011-node.js:176 | the last two hex digits of the period are the period minus a multiple of 256 |
| Encoder.SetWorkingPeriod | sds011-node.js:175-181 | the frame decodes to sub-command 8, set, value period mod 256 (the period itself below 256) |
| Encoder.GetWorkingPeriod | sds011-node.js:184-189 | the frame decodes to sub-command 8, query, to the given id |
| Encoder.CheckFirmwareVersion | sds011-node.js:192-197 | the frame decodes to sub-command 7, query, to the given id |
| Encoder.DecodeFrame | sds011-node.js:124-126 | every request survives building and decoding its frame |
| Encoder.FrameOfDecode | sds011-node.js:124-126 | a decodable frame is exactly the frame built from what it decodes to, so the encoders' contracts fix every byte |
| Encoder.PayloadChecksum | sds011-node.js:125 | the checksum byte is the sum of sub-command, flag, value and the four id bytes, modulo 256 |
| Encoder.SetDeviceIdExample | sds011-node.js:149-151 | setDeviceId(0x1234) to the broadcast id is AA B4 05, ten zeros, 12 34 FF FF 49 AB |
| Framer.IndexOfHead | sds011-node.js:200 | the result is the first index of 0xAA, or -1 exactly when there is none |
| Framer.NextBeginning | sds011-node.js:199-205 | the result is a suffix that is empty or starts with 0xAA, and the dropped prefix holds no 0xAA |
| Framer.Accepted | sds011-node.js:222 | a frame is accepted exactly when the sum of bytes 2 to 7, modulo 256, equals byte 8 and byte 9 is AB |
| Framer.Align | sds011-node.js:213-215 | the realigned buffer is the suffix from the first 0xAA on, or empty |
| Framer.Step | sds011-node.js:210-228 | the kept buffer is a suffix of buffer plus chunk; a handed-on buffer empties it, has at least ten bytes, is the suffix from the first 0xAA and is accepted |
| Framer.AlignIsNextBeginning | sds011-node.js:213-215 | realigning only when byte 0 is not 0xAA gives the same buffer as always realigning |
| Framer.StepSpec | sds011-node.js:210-228 | a delivery hands on a buffer iff the aligned buffer has 10 bytes, a matching checksum and tail AB; it then empties the buffer, a short buffer is kept, a rejected one loses exactly 10 bytes |
| Framer.HandedFrame | sds011-node.js:217-228 | what is handed on starts with a checked frame AA..AB and is the suffix of buffer plus chunk after a prefix free of 0xAA |
| Framer.StepAligned | sds011-node.js:213-219 | after a delivery that waits or hands on, the buffer is empty or starts with 0xAA |
| Framer.IndexOfHeadAfterNoise | sds011-node.js:200 | after a prefix free of 0xAA, the first head byte is found right after that prefix |
| Framer.ResponseAfterNoise | sds011-node.js:210-228 | a response after noise free of 0xAA is handed on whole and the buffer is emptied |
| Framer.RunEmpty | sds011-node.js:209-229 | empty deliveries to an empty buffer hand nothing on |
| Framer.StepWithinResponse | sds011-node.js:210-228 | a delivery that completes a buffered response start hands it on; one that does not keeps the aligned prefix |
| Framer.ResponseInChunks | sds011-node.js:209-229 | a response split over any number of chunks is handed on exactly once and the buffer ends empty |
| Framer.NoiseThenResponse | sds011-node.js:209-229 | a delivery of noise free of 0xAA followed by any chunking of a response hands that response on once |
| Framer.NoiseDropped | sds011-node.js:210-219 | a delivery of bytes without 0xAA to an empty buffer keeps nothing and hands nothing on |
| Framer.NoiseSkipped | sds011-node.js:209-229 | such a delivery at the start of a series of deliveries does not change what the series yields |
| Framer.RunSingle | sds011-node.js:209-229 | a series of one delivery yields what that delivery's step yields |
| Framer.WholeResponse | sds011-node.js:217-228 | a response delivered whole to an empty buffer is handed on once and the buffer ends empty |
| Framer.NoiseThenWhole | sds011-node.js:209-229 | noise without 0xAA, then a whole response in a second delivery, hands that response on once |
| Framer.SecondResponseLost | sds011-node.js:227-228 | two responses in one delivery are handed on as one buffer, and nothing is kept for the second |
| Framer.SerialParser.constructor | sds011-node.js:208 | the accumulation buffer starts empty |
| Framer.SerialParser.Feed | sds011-node.js:209-229 | the new buffer and what is handed on are those of one delivery step |
| Interpreter.SenderId | sds011-node.js:244 | byte 6 is the high byte of the id and byte 7 the low byte |
| Interpreter.Acknowledgement | sds011-node.js:266-342 | an acknowledgement yields nothing exactly when byte 2 is none of 2, 5, 6, 7, 8; otherwise an info carrying the sender id; a periodic report has a non-zero byte 4 and sleeps byte 4 minus 1 minutes |
| Interpreter.Interpret | sds011-node.js:243-349 | the id is always taken from bytes 6 and 7; C0 gives the counts b2+256*b3 and b4+256*b5; C5 reports by byte 2 (2 active iff b4 = 0, 6 sleep iff b4 = 0, 8 continuous iff b4 = 0 else b4-1 minutes, 7 firmware, 5 new id, others nothing); any other class reports an unknown command |
| Interpreter.Reply | sds011-node.js:232-242 | a reply built from a class byte and six data bytes is a well-formed, checksummed response |
| Interpreter.MeasurementReply | sds011-node.js:249-255 | a measurement reply is a well-formed response |
| Interpreter.AckReply | sds011-node.js:265-266 | an acknowledgement reply is a well-formed response |
| Interpreter.MeasurementRoundTrip | sds011-node.js:244-261 | a measurement reply reads back as the same two raw counts and the same sender id |
| Session.Sds011.constructor | sds011-node.js:11 | the device id starts as broadcast 0xFFFF and the parser buffer starts empty |
| Session.Sds011.ParseMessage | sds011-node.js:243-349 | the stored device id and the emitted event are those of Interpret |
| Session.Sds011.OnData | sds011-node.js:31-33 | one delivery updates the parser buffer as Step does; when nothing is handed on, the id is unchanged and nothing is emitted |
| Session.Sds011.HandleInput | sds011-node.js:35-95 | a known command sends its frame to the current id and then a firmware query to the current id; an unknown one sends only the query; a missing number for setDeviceId or setWorkingPeriod raises before anything is sent |
| Session.CommandOf | sds011-node.js:38-43 | the command is msg.command unless that is undefined, in which case it is msg.payload |
| Session.ParameterOf | sds011-node.js:38-43 | the parameter is msg.parameter when msg.command is defined, and undefined otherwise |
| Session.CommandFrame | sds011-node.js:45-91 | the frame a known command sends decodes to the request that command stands for, to the given id |
| Session.Switch | sds011-node.js:45-91 | the case found is the one whose label equals the command, and none of the labels matches in the default branch |
| Session.ReportingModeEcho | sds011-node.js:266-283 | the echo of setDataReportingMode(mode) is reported as active mode exactly for 'active' |
| Session.StatusEcho | sds011-node.js:295-311 | the echo of setStatus(mode) is reported as sleep mode exactly for 'sleep' |
| Session.WorkingPeriodEcho | sds011-node.js:323-339 | the echo of setWorkingPeriod(n) is continuous mode for 0, and otherwise a sleep of n*60-30 seconds |
| Session.SampleIsResponse | sds011-node.js:222 | frame AA C0 96 00 50 00 34 0A 24 AB is a well-formed, accepted response |
| Session.SampleReading | sds011-node.js:244-261 | frame AA C0 96 00 50 00 34 0A 24 AB is read as counts 150 and 80 from device 0x340A |
| Session.SampleAccepted | sds011-node.js:217-228 | frame AA C0 96 00 50 00 34 0A 24 AB, delivered to an empty buffer, is handed on whole and the buffer is emptied |
| Session.CorruptedSampleDropped | sds011-node.js:222-225 | the same frame with checksum 2C is rejected and its ten bytes are dropped |
| Session.NoiseThenSample | sds011-node.js:210-228 | two bytes other than 0xAA (such as 00 00), then frame AA C0 96 00 50 00 34 0A 24 AB in a second delivery, hand that frame on once |

## Left out

- Serial port construction, its open, error, close and data wiring, and the
  node's close handler (sds011-node.js:12-33, 97-103): transport I/O. The
  first parser, passed as an option at line 14, is never fed here.
- `sendBuffer` and `serial.write` (116-118): the encoders return the frame.
- Node-RED registration and the node globals (7-10, 105).
- `node.log`, `node.debug`, `node.error` and `node.status`: diagnostics only.
  In the default branch of the input switch, the error report is the only
  thing left out; the firmware query it still sends is modelled.
- `sendPMValues`, `sendInfo` and their `new Date()` timestamps (369-382):
  events are returned as `Event` values without time.
- Interpreter.Interpret: reports the raw counts in tenths of µg/m³ and does
  not model the floating-point division by 10.0 (260-261).
- The exact text of the info messages, including the unpadded hex id
  (293): events are constructors that carry their fields.
- Session.Sds011.HandleInput: gives `Unmodelled` for a string parameter of
  setDeviceId or setWorkingPeriod, although the source accepts strings.
  `String.prototype.toString` ignores its radix, so `setDeviceId("1234")`
  builds a valid frame with new id 0x1234, and `setWorkingPeriod("5")`
  builds a valid period frame. These string paths are not modelled.
- Session.Sds011.HandleInput: also gives `Unmodelled` for an out-of-range or
  negative number. The source formats such a value into a malformed or
  widened hex string. The encoders themselves take ids in 0..0xFFFF and
  non-negative periods.
- `null`, booleans, objects and non-integer numbers are not modelled:
  `Value` has no constructor for them, and they behave differently from
  the modelled values. `setDeviceId(null)` throws. A message with
  `command === null` does not fall back to `payload`, because line 38
  tests for `undefined` only. `setWorkingPeriod(1.5)` formats the period
  as ".8", which gives a truncated buffer.
- Concurrency: everything runs on the single event-loop thread of the node.
