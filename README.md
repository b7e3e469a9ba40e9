# Line-following robot client: telemetry decoder and controller

This project models the two pieces of logic at the heart of the CoppeliaSim
robot client.

1. **The telemetry decoder.** It runs in the receive thread. It turns the
   byte stream from the simulator into values of the shared `SocketClient`
   sensor fields. There are two copies of it:
   - `receive_loop` in `coppeliasim_client.h`. It cuts segments with
     `strchr`, so empty pieces count. It copies each `S:`/`C:` payload into a
     256-byte buffer.
   - `receive_loop` in `botoverturns.c`. It cuts sensor and colour payloads
     with `strtok`, which skips empty pieces.

   Both copies frame the stream on `\n`. They keep a 2048-byte line buffer,
   holding at most 2047 characters, across reads. Each record is cut at `;`
   into `S:` (five line sensors), `P:` (proximity) and `C:` (colour)
   segments. Other segments are ignored.
2. **The controller of `botoverturns.c`** (`control_loop`). Each cycle it:
   - computes a PID correction from the five line sensors;
   - raises the base speed while a box is carried;
   - clamps both wheel speeds to [0, 1];
   - runs a three-phase machine:
     - Searching: pick a close, coloured box and classify its colour into a
       drop zone.
     - Navigating: at a junction, turn left (zone 3) or right (zone 1) in a
       blocking sub-loop until the middle sensor sees the line. Go on to drop
       when the colour sensor reads the picked colour again.
     - Dropping: stop, drop, and search again.

How the model is structured:

- **Decoder, pure reference.** `Framing.Frame` frames bytes into records plus
  the partial line. `Records.ApplyRecord` parses one record into a
  `Telemetry.Snapshot`. `Decoder.Consume` combines the two.
- **Decoder, imperative.** The class `Decoder.Receiver` holds the sensor
  fields (`lineSensors` is an array), the line buffer (an array) and its fill
  position. Its byte loop, `;` loop and payload loops are proved to compute
  `Consume`.
- **Controller, pure reference.** The loop variables of `control_loop` form
  the `Controller.Memory` value. `Controller.Step` is one cycle and
  `Controller.Run` is the whole loop.
- **Controller, imperative.** `Controller.Cycle`, `Controller.TurnLoop` and
  `Controller.ControlLoop` follow the C statements and are proved equal to
  `Step`, `Turn` and `Run`. Commands are values: `Motor(left, right)`, `Pick`,
  `Drop`.

What the code does, which the model follows:

- The controller has three phases: searching, navigating and dropping.
- The junction test reads the middle three sensors only (sensors 1 to 3),
  each below 0.4.
- The drop zone comes from comparing the colour channels with each other,
  not from fixed thresholds.
- After a drop, `drop_zone` keeps its value. A failed pick or drop is not
  retried, because the results of `pick_box` and `drop_box` are ignored.
- A box is picked when `prox < 1.0` and some colour channel is above 0.1:
  the same cycle sends a stop and then PICK. The proximity is not checked
  for being positive.

## Model

| member | source | states |
|---|---|---|
| Telemetry.WriteSlotsStep | coppeliasim_client.h:181-182 | writing the next token, while fewer than five are written, changes exactly the next sensor slot to that token's conversion |
| Telemetry.WriteSlotsDone | coppeliasim_client.h:185 | once every token or five of them have been written, the slots are final: further tokens change nothing |
| Telemetry.CString | coppeliasim_client.h:150-151 | `strcpy` keeps exactly the prefix of the buffer before its first NUL: a NUL-free prefix ending at the buffer's end or at a NUL |
| Telemetry.Cut | coppeliasim_client.h:158-162 | `strchr` + cut: the text before the first separator is separator-free; with no separator it is the whole string; otherwise text, separator and rest glue back to the input |
| Telemetry.CutAt | coppeliasim_client.h:158-162 | cutting `a + sep + b` with `a` separator-free gives back `(a, b)`; this inverts the gluing |
| Telemetry.CutNone | coppeliasim_client.h:158-162 | a string without the separator is left whole and no rest is returned |
| Telemetry.SplitOn | coppeliasim_client.h:157-217 | the pieces a `strchr` cutting loop visits: at least one, none holding the separator, and joined back they give the input |
| Telemetry.SplitJoin | coppeliasim_client.h:157-217 | splitting the join of separator-free pieces gives back those pieces (round trip) |
| Telemetry.NextToken | botoverturns.c:152-153 | one `strtok` call: no token exactly when only separators remain; otherwise a non-empty, separator-free token and a strictly shorter remainder |
| Telemetry.TokensSkipEmpty | botoverturns.c:152-153 | the tokens successive `strtok` calls return are exactly the non-empty pieces of the `strchr` cutting, in order |
| Framing.FrameFromRecords | coppeliasim_client.h:144-147 | completed records are never changed again; new ones are appended after them |
| Framing.FrameSplit | coppeliasim_client.h:137-226 | split invariance of framing: one read of `a + b` completes the same records in the same order, and leaves the same partial line, as a read of `a` then a read of `b` |
| Framing.RecordPerNewline | coppeliasim_client.h:144-147 | each `\n` completes exactly one record, and nothing else completes one |
| Framing.LineBounded | coppeliasim_client.h:220-224 | the line buffer never holds more than 2047 characters, and no record is longer |
| Framing.FrameWithoutNewline | coppeliasim_client.h:220-224 | a read without `\n` completes nothing and extends the partial line up to its first 2047 characters |
| Framing.PartialAfterLastNewline | coppeliasim_client.h:144-224 | after a read, the partial line is what follows its last `\n` (cut to 2047), and that `\n` added one record |
| Framing.FrameLine | coppeliasim_client.h:144-224 | one newline-free line followed by `\n`, from an empty buffer, completes exactly that line (cut to 2047) and empties the buffer |
| Framing.FrameEncode | coppeliasim_client.h:144-224 | round trip: framing newline-terminated, newline-free lines gives back those lines (each cut to 2047) and an empty buffer |
| Records.RecordDefinedFirst | coppeliasim_client.h:157-162 | a parsable record starts with a parsable segment, and what follows its first `;` is a parsable record |
| Records.RecordIsSegmentsInOrder | coppeliasim_client.h:153-217 | the `;` loop applies the record's segments (empty ones included) one after another, left to right |
| Records.UntaggedRecordChangesNothing | coppeliasim_client.h:164-214 | a record with no `S:`/`P:`/`C:` segment, the empty line among them, is parsable and leaves every field unchanged |
| Records.ProximitySegment | coppeliasim_client.h:187-189 | in both decoders, `P:` sets the proximity to the conversion of the rest of the segment and touches no other field |
| Records.HeaderColourPieces | coppeliasim_client.h:191-213 | header `C:` always sets red from the first piece. It sets green only if there is a comma and blue only if there are two; blue's text is everything after the second comma. Line and proximity are unchanged |
| Records.HeaderSensorPieces | coppeliasim_client.h:164-185 | header `S:` writes slots 0..min(k,5)-1 from the k pieces, empty ones included. The other slots and fields keep their values. An empty payload still writes slot 0 |
| Records.StrtokSensorPieces | botoverturns.c:149-153 | `strtok` `S:` writes slots from the non-empty pieces only. The other slots and fields keep their values. A payload of only commas changes nothing |
| Records.StrtokColourPieces | botoverturns.c:156-162 | with three non-empty pieces, `strtok` `C:` is defined and overwrites all three channels, and nothing else |
| Records.LaterSegmentOverwrites | coppeliasim_client.h:157-217 | a segment directly followed by one with the same tag that writes at least as many fields leaves no trace |
| Records.UnsuppliedFieldsKept | coppeliasim_client.h:157-217 | over any list of segments, the line slots stay as they were when no segment is `S:`, the proximity when none is `P:`, and all three colour channels when none is `C:` |
| Records.RecordKeepsUnsuppliedFields | coppeliasim_client.h:153-217 | a record without an `S:`, `P:` or `C:` segment leaves the fields of that tag unchanged; for example, a record with no `C:` keeps r, g and b |
| Records.ApplySegmentsAppend | coppeliasim_client.h:157-217 | applying two lists of segments one after the other is applying their concatenation |
| Records.SegmentsCommute | coppeliasim_client.h:164-214 | two segments with different tags write different fields, so applying them in either order gives the same snapshot |
| Records.LaterSegmentOverwritesAcross | coppeliasim_client.h:157-217 | a segment is overwritten by a later segment with the same tag that writes at least as many fields, even with segments of other tags between them |
| Records.LaterSegmentOverwritesIn | coppeliasim_client.h:157-217 | the same inside a longer list: with any segments before and after, the list applies as if the earlier segment were absent |
| Records.LaterSegmentOverwritesAt | coppeliasim_client.h:157-217 | segment `i` followed by a same-tag segment `j` that writes as many fields, with no segment of that tag between, leaves no trace: the list applies as if `i` were removed |
| Records.RecordLaterSegmentOverwrites | coppeliasim_client.h:153-217 | in a whole record such as `C:1,2,3;P:5;C:4,5,6`, the earlier same-tag segment leaves no trace: the record decodes as its segments without it |
| Records.CleanSegmentAgrees | botoverturns.c:145-163 | on a segment with short payloads, no empty piece and a three-piece colour, the two decoders write the same fields |
| Records.CleanRecordAgrees | botoverturns.c:141-166 | the two receive loops decode a record made of such segments to the same snapshot |
| Decoder.LinesDefinedAppend | coppeliasim_client.h:144-225 | the lines `a + b` are all parsable exactly when those of `a` and those of `b` are |
| Decoder.DecodeAppend | coppeliasim_client.h:144-225 | parsing the lines `a + b` is parsing `a` and then `b` |
| Decoder.ConsumeSplit | coppeliasim_client.h:137-229 | split invariance of the whole decoder: one read of `a + b` leaves the same partial line and sensor values as a read of `a` then a read of `b` |
| Decoder.ConsumeByte | coppeliasim_client.h:144-225 | consuming bytes is consuming them one at a time through `ConsumeOne`: a `\n` parses the buffered line (cut at its first NUL) into the snapshot and empties the buffer. Any other byte leaves the snapshot alone. It is appended only while fewer than 2047 are buffered |
| Decoder.ConsumeNext | coppeliasim_client.h:144-225 | inside a parsable read, consuming the bytes up to index `i + 1` is consuming those up to `i` and then byte `i`, which the decoder can take |
| Decoder.DeliveredAppend | coppeliasim_client.h:139-141 | the bytes of a sequence of reads are those of its parts in order |
| Decoder.ReceiveNext | coppeliasim_client.h:137-229 | consuming what reads `k..` deliver is consuming what read `k` delivers and then what the later reads deliver, and both parts are parsable |
| Decoder.Receiver.constructor | botoverturns.c:53 | a client starts with every sensor field zero, as the zero-initialised global `client` does, and with the empty line buffer and zero position that `receive_loop` starts from |
| Decoder.Receiver.ParseSensorsHeader | coppeliasim_client.h:164-185 | the `strchr` loop leaves the sensor array equal to the first min(k,5) pieces' conversions followed by the old values |
| Decoder.Receiver.ParseSensorsStrtok | botoverturns.c:149-153 | the `strtok` loop leaves the sensor array equal to the first min(k,5) tokens' conversions followed by the old values |
| Decoder.Receiver.ParseColourHeader | coppeliasim_client.h:191-213 | the fields after the header `C:` code are those `HeaderColour` specifies (see HeaderColourPieces) |
| Decoder.Receiver.ParseColourStrtok | botoverturns.c:156-162 | three `strtok` calls set red, green and blue from the first three tokens and nothing else |
| Decoder.Receiver.ParseSegment | coppeliasim_client.h:164-214 | tag dispatch: the fields after one segment are `ApplySegment` of those before; the line buffer is untouched |
| Decoder.Receiver.ParseLine | coppeliasim_client.h:153-217 | the `;` loop leaves the fields equal to `ApplyRecord` of those before |
| Decoder.Receiver.FeedByte | coppeliasim_client.h:145-225 | one byte moves the buffer and fields exactly as `ConsumeOne` says: a `\n` parses the line and resets the position, another byte is stored only while there is room |
| Decoder.Receiver.Feed | coppeliasim_client.h:144-226 | the byte loop leaves buffer and fields equal to `Consume` of the previous state and the read's bytes |
| Decoder.Receiver.Receive | coppeliasim_client.h:139-227 | one outer pass: a read of `n > 0` bytes is consumed, and a read of `n <= 0` changes nothing |
| Decoder.Receiver.ReceiveLoop | coppeliasim_client.h:137-229 | the loop over all reads leaves the state equal to `Consume` of everything delivered, however it was split into reads |
| Controller.ComputeLineError | botoverturns.c:199-201 | the `for` loop and guarded division compute `LineError`: the blackness-weighted mean sensor position, or 0 when no blackness |
| Controller.SumsExpanded | botoverturns.c:199-200 | the two sums written out as weights -2..2 applied to `1 - ir[i]` |
| Controller.MirrorNegatesError | botoverturns.c:199-201 | a line seen mirrored gives exactly the opposite error |
| Controller.ErrorBounded | botoverturns.c:199-201 | with readings in [0, 1] the error lies in [-2, 2] |
| Controller.ErrorExamples | botoverturns.c:199-201 | a line under the middle sensor gives 0. A line under the two left sensors gives a negative error. No line at all gives 0 |
| Controller.Clamp | botoverturns.c:213-214 | the result lies in [0, 1]. It equals the input inside that range, 1 above it and 0 below it |
| Controller.DriveSaturates | botoverturns.c:202-214 | the drive command is full speed on both wheels exactly when the PID correction lies within base - 1: within [-1.6, 1.6] while searching (base 2.6) and within [-3.2, 3.2] while carrying (base 4.2) |
| Controller.Zone | botoverturns.c:230-233 | zone 1 exactly when red is the unique largest channel. Zone 2 exactly when blue is. Zone 3 exactly when green is a largest channel or red and blue tie for largest. Every colour gets exactly one zone |
| Controller.InnerSpeed | botoverturns.c:249-254 | the inner wheel's speed is in [0.1, 0.5], and it is 0.5 exactly when the middle sensor sees the line |
| Controller.TurnCommands | botoverturns.c:248-264 | the commands for a range of readings: one per reading, in order, each the turn command for that reading |
| Controller.TurnFromEndsAt | botoverturns.c:248-264 | from any reading on, the turn ends with the client still running right after the first centred reading, with one command per reading up to it |
| Controller.TurnEndsAtFirstCentred | botoverturns.c:248-264 | the turn sends one command per reading up to and including the first centred one, then ends with the client still running |
| Controller.TurnFromUntilStopped | botoverturns.c:270-286 | from any reading on, a turn that never centres answers every remaining reading and ends with `running` false |
| Controller.TurnUntilStopped | botoverturns.c:270-286 | a turn that never centres answers every reading and ends because `running` became false |
| Controller.TurnSpeeds | botoverturns.c:249-256 | the three overriding `if`s of one turn iteration choose exactly `TurnCommand`'s speeds: middle beats side beats corner beats the default 0.1 |
| Controller.TurnLoop | botoverturns.c:245-287 | the overriding-`if` loop sends exactly the commands of `Turn` (priority middle > side > corner) and reports whether running still holds |
| Controller.Cycle | botoverturns.c:194-322 | one pass of the loop body as written yields `Step`'s new memory, commands and running flag |
| Controller.RunFromStep | botoverturns.c:193-328 | one cycle of a run: a cycle whose turn stopped the client ends the run with that cycle's outcome; otherwise its commands come first and the run goes on from the next input with its memory |
| Controller.ControlLoop | botoverturns.c:178-331 | from the initial variables, the loop sends `Run`'s commands and leaves `Run`'s memory |
| Controller.TurnSpeedsInRange | botoverturns.c:249-256 | every turn command has wheel speeds in [0, 1] |
| Controller.StepSpeedsInRange | botoverturns.c:211-322 | whatever the snapshot and memory, every motor command of a cycle has both speeds in [0, 1] |
| Controller.RunSpeedsInRange | botoverturns.c:193-328 | every motor command of any run of the loop has both speeds in [0, 1] |
| Controller.SearchingStep | botoverturns.c:218-238 | Searching moves to Navigating exactly when the box is close and coloured. It then sends drive, stop and PICK, and records the colour and `Zone` of it. Otherwise it sends only the drive command |
| Controller.NavigatingStep | botoverturns.c:240-310 | Navigating moves to Dropping exactly when all channels are within 0.1 of the picked colour, and it keeps the colour and zone. It turns left (zone 3) or right (zone 1) only at a junction, and it always ends with the drive command computed before any turn |
| Controller.DroppingStep | botoverturns.c:312-321 | Dropping always sends stop then DROP and returns to Searching; the zone is not cleared |
| Controller.UnchangedColourArrives | botoverturns.c:300-308 | reading the picked colour again counts as arrival on that cycle |
| Controller.RunKeepsZoneKnown | botoverturns.c:230-236 | on any run, while a box is carried, its drop zone is 1, 2 or 3 |
| Controller.ActionsAppend | botoverturns.c:219-315 | the PICK/DROP commands of joined command lists are those of the parts, in order |
| Controller.TurnHasNoActions | botoverturns.c:248-287 | a turn sends no PICK or DROP |
| Controller.StepActions | botoverturns.c:218-321 | a cycle sends PICK exactly when it starts carrying and DROP exactly when it stops, and nothing else |
| Controller.AlternatingPrepend | botoverturns.c:218-321 | a cycle's actions that flip the carrying state by one PICK or DROP, or keep it with none, extend an alternating sequence |
| Controller.RunAlternates | botoverturns.c:193-328 | over any run, from any cycle on, PICK and DROP strictly alternate, starting with DROP when a box is carried and with PICK otherwise |
| Controller.Delivery | botoverturns.c:193-328 | from the start, a run of three cycles goes back to Searching: a pick cycle, then an arrival cycle away from a junction reading the same colour, then a drop cycle. The run sends exactly PICK then DROP and remembers the box's zone |

## Left out

- Sockets, `READ`/`send`, and the wire encoding of commands (`L:%.2f;R:%.2f`, `PICK`, `DROP`) are left out. Commands are values, and each read is a `(n, buffer)` pair supplied by the caller.
- Threads, `SLEEP`, `printf`, and start-up and shutdown (`connect_to_server`, `disconnect`, `main`) are left out. So are the unsynchronised sharing of the sensor fields between the receive thread and the control thread, and torn reads. Each control cycle gets one consistent snapshot.
- The `running` flag is not a variable. The decoder loop is given the finite list of reads made while it holds. A turn sub-loop is given the finite list of readings it sees while it holds. Running out of them means the flag went false, which also ends the control loop.
- `atof` is a parameter, an arbitrary total function from text to a number. Its parsing of leading digits is not modelled, and every decoder property holds for every such function.
- Controller.Step: floating-point arithmetic is modelled with exact reals. Float rounding in the PID law, the speed clamp and the `(float)` casts is not modelled.
- Controller.StepSpeedsInRange: the [0, 1] bound holds for finite readings only. Infinities and NaN are not modelled. In C, `atof("-inf")` or an overflowing `w[i]*v` makes the error NaN. Both tests of the clamp are then false, so `set_motor` receives NaN.
- Controller.RunSpeedsInRange: the same holds over a run, which assumes every reading is finite. In C, once `integral` is NaN it stays NaN, and `Ki*integral`, which is 0 times NaN, makes every later drive command NaN.
- Bytes are Dafny `char`s. Encodings are not modelled.
- Undefined behaviour is excluded by preconditions, not modelled. Two cases are excluded: a header `S:`/`C:` payload of 256 or more characters, which overflows `values_copy[256]`; and a `strtok` `C:` segment with fewer than three tokens, which passes NULL to `atof`.
- `pick_box` and `drop_box` return values are ignored by the code and not modelled. So is `set_motor`'s socket check.
- `Task2a.c`, a skeleton client whose control loop only calls the actuator functions, is not part of this model.
