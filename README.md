# MKSServoCAN codec, modelled in Dafny

MKSServoCAN drives MKS servo motors over a CAN bus. This project models its
codec, `src/MKSServoCAN.cpp`:

- the frame checksum (`computeCRC`): the identifier plus every payload
  byte, kept to 8 bits;
- frame construction (`sendFrame`): the payload, then its checksum, in a
  frame whose data length code is one more than the payload's length;
- the 48 command builders (`readEncoderCarry` … `posAxisStop`): each one is
  a fixed byte layout. There is a command code, then the parameters. A
  multi-byte field is big-endian. Flags and speed bits are packed into
  single bytes;
- the response decoder (`pollResponses`): one `switch` on the code byte of
  each received frame. Each branch has a length guard and then reads
  signed or unsigned big-endian fields, sign-extends 48-bit encoder counts
  or looks a status byte up in a table of names. Unknown codes are dumped
  raw.

Modules, one file each:

| file | module | contents |
|---|---|---|
| `bytes.dfy` | `Bytes` | fixed-width integers, big-endian folding and splitting, two's complement |
| `wrappers.dfy` | `Wrappers` | `Option` |
| `checksum.dfy` | `Checksum` | `Crc` and the `computeCRC` loop |
| `frames.dfy` | `Frames` | CAN frames, `sendFrame`, the bus as a list of sent and pending frames |
| `commands.dfy` | `Commands` | the `Command` datatype (one constructor per builder), `Payload`, and a reference reader `ParseCommand` |
| `responses.dfy` | `Responses` | `Decode`, the 48-bit fold, the receive loop |

Each C++ builder `foo(id, args…)` is the constructor `Foo(args…)`. Its
bytes are `Payload(Foo(args…))` and the call is `Commands.Send(bus, id, …)`.

The library itself has no decoder for commands. `ParseCommand` is a
reference reader: it takes each field from where its builder puts it. The
central result is `ParseOfPayload`: the reader recovers every command, up
to what its layout keeps (`Canonical`). With `PayloadOfCanonical`, this
gives `PayloadInjective`: two commands produce the same bytes exactly when
they agree on what is kept. Only four kinds of command lose information:

- speed mode and relative moves keep the low 12 bits of the speed;
- relative moves keep the low 24 bits of their `uint32_t` distance;
- absolute and axis moves keep the low 24 bits of their `int32_t`
  position, which reads back as a signed 24-bit value;
- a move whose kept fields are all zero has the same bytes as its stop.

The decoder's printed text is replaced by the value it shows, a
`Responses.Response`. The model keeps these behaviours of the code as
written:

- The code byte `data[0]` is read before any length check, so an empty
  frame is reported with whatever code the receive buffer still holds.
- Every other byte is read only behind a guard long enough for it
  (`Locality`).
- The checksum of a received frame is never checked.
- The 0x00 (system parameter) branch prints every byte from index 2 up to
  `dlc`, the trailing checksum included.

## Model

| member | source | states |
|---|---|---|
| Bytes.FromBEOfToBE | src/MKSServoCAN.cpp:304-306 | splitting a value that fits in n bytes into big-endian bytes (`x>>24`, `x>>16`, …, each cast to `uint8_t`) and folding them back gives the value |
| Bytes.ToBEOfFromBE | src/MKSServoCAN.cpp:53-58 | folding bytes big-endian and splitting the result back gives the same bytes, so the fold is one-to-one on strings of one length |
| Bytes.Low24 | src/MKSServoCAN.cpp:338-340 | the three bytes `x>>16`, `x>>8`, `x` of any integer, negative ones included, fold back to `x` modulo 2^24 |
| Bytes.Field24 | src/MKSServoCAN.cpp:333-335 | the shifted-byte form of a 24-bit field folds back to the value modulo 2^24 |
| Bytes.FromBEHead | src/MKSServoCAN.cpp:53-58 | the first byte of a big-endian string weighs 256^(n-1) |
| Bytes.SignOfFirstByte | src/MKSServoCAN.cpp:53-58 | a big-endian string read as two's complement is negative exactly when the top bit of its first byte is set |
| Bytes.SignedOfUnsigned | src/MKSServoCAN.cpp:53-58 | reading back the bit pattern of a signed value gives the value |
| Checksum.ComputeCrc | src/MKSServoCAN.cpp:18-24 | the loop, with its 32-bit wrap-around of `sum`, returns the low byte of the identifier plus the payload bytes |
| Checksum.CrcAppend | src/MKSServoCAN.cpp:18-24 | one more payload byte adds itself to the checksum, modulo 256 |
| Checksum.CrcDependsOnLowIdByte | src/MKSServoCAN.cpp:13-24 | two identifiers give the same checksum for a payload if and only if their low 8 bits agree |
| Checksum.SumUpdate | src/MKSServoCAN.cpp:18-24 | replacing one byte changes the sum by the difference of the two bytes |
| Checksum.CrcDetectsSingleByteChange | src/MKSServoCAN.cpp:18-24 | changing any single payload byte changes the checksum |
| Checksum.CrcExamples | src/MKSServoCAN.cpp:18-24 | `readEncoderCarry(1)` has checksum 0x31 and `setCurrent(1, 500)` has checksum 0x79 |
| Frames.Frame | src/MKSServoCAN.cpp:29-36 | the frame has the identifier, `dlc` is the payload length plus one (at most 8), the payload comes first, its checksum follows, and the remaining bytes are zero |
| Frames.BuildFrame | src/MKSServoCAN.cpp:29-35 | copying payload and checksum into a zeroed 8-byte data field gives exactly `Frame(id, payload)` |
| Frames.SendFrame | src/MKSServoCAN.cpp:29-36 | exactly one frame, `Frame(id, payload)`, is handed to the bus; nothing else changes |
| Frames.Bus.Receive | src/MKSServoCAN.cpp:47 | `receive` yields the oldest pending frame and removes it, or reports that none is left |
| Commands.Payload | src/MKSServoCAN.cpp:270-346 | every builder's payload is 1 to 7 bytes, leaving room for the checksum |
| Commands.Send | src/MKSServoCAN.cpp:270-346 | a builder call sends one frame, the frame of its payload |
| Commands.SpeedBitPacking | src/MKSServoCAN.cpp:327-335 | in the speed byte, bit 7 is the direction, bits 6..4 are clear and bits 3..0 are speed bits 11..8 |
| Commands.DirBits | src/MKSServoCAN.cpp:328 | a direction bit (0 or 0x80) plus a nibble sets bit 7 exactly for 0x80 and leaves bits 6..4 clear |
| Commands.SpeedKeeps12Bits | src/MKSServoCAN.cpp:327-335 | bytes 1..2 of speed mode and relative moves fold to the speed modulo 4096 |
| Commands.TriggerFlagsPacking | src/MKSServoCAN.cpp:316-318 | the setEnTrigger flag byte is below 4, bit 0 is `et` and bit 1 is `pp` |
| Commands.Fields16 | src/MKSServoCAN.cpp:285-296 | setCurrent, setCanId and setGroupId put their 16-bit value at bytes 1..2 |
| Commands.HomeParamsFields | src/MKSServoCAN.cpp:299-301 | setHomeParams puts its speed at bytes 3..4 |
| Commands.NoLimitReturnFields | src/MKSServoCAN.cpp:304-306 | setNoLimitReturn puts its 32-bit distance at bytes 1..4 and its current at bytes 5..6 |
| Commands.EnTriggerFields | src/MKSServoCAN.cpp:316-318 | setEnTrigger puts its time at bytes 2..3 and its error at bytes 4..5 |
| Commands.RelativeMoveFields | src/MKSServoCAN.cpp:333-335 | posRelative carries its distance modulo 2^24 at bytes 4..6 |
| Commands.AbsoluteMoveFields | src/MKSServoCAN.cpp:338-340 | posAbsolute carries its full speed at bytes 1..2 and its position modulo 2^24 at bytes 4..6 |
| Commands.AxisMoveFields | src/MKSServoCAN.cpp:343-345 | posAxis has the same layout as posAbsolute, under code 0xF4 |
| Commands.ParseNullary | src/MKSServoCAN.cpp:270-325 | the parameterless commands and calibrate read back as themselves |
| Commands.ParseByteParam | src/MKSServoCAN.cpp:284-320 | the commands with one plain byte parameter read back as themselves |
| Commands.ParseFlagParam | src/MKSServoCAN.cpp:289-331 | the commands with flag parameters read back as themselves, speedState's 0xC8/0xCA included |
| Commands.ParseSetCurrent | src/MKSServoCAN.cpp:285 | setCurrent reads back as itself |
| Commands.ParseSetCanId | src/MKSServoCAN.cpp:294 | setCanId reads back as itself |
| Commands.ParseSetGroupId | src/MKSServoCAN.cpp:296 | setGroupId reads back as itself |
| Commands.ParseHomeParams | src/MKSServoCAN.cpp:299-301 | setHomeParams reads back as itself |
| Commands.ParseNoLimitReturn | src/MKSServoCAN.cpp:304-306 | setNoLimitReturn reads back as itself |
| Commands.ParseZeroMode | src/MKSServoCAN.cpp:309-311 | setZeroMode reads back as itself |
| Commands.ParseEnTrigger | src/MKSServoCAN.cpp:316-318 | setEnTrigger reads back as itself |
| Commands.ParseSpeedMode | src/MKSServoCAN.cpp:327-329 | speedMode reads back with its speed modulo 4096, or as the stop when all its kept fields are zero |
| Commands.RelativeMoveRead | src/MKSServoCAN.cpp:333-335 | a posRelative payload has code 0xFD, length 7 and a valid speed byte; its direction, speed modulo 4096, acceleration and distance modulo 2^24 are where the reader takes them |
| Commands.ParsePosRelative | src/MKSServoCAN.cpp:333-335 | posRelative reads back with its speed modulo 4096 and its distance modulo 2^24, or as the stop |
| Commands.ParsePosAbsolute | src/MKSServoCAN.cpp:338-340 | posAbsolute reads back with its position as a signed 24-bit value, or as the stop |
| Commands.ParsePosAxis | src/MKSServoCAN.cpp:343-345 | posAxis reads back with its position as a signed 24-bit value, or as the stop |
| Commands.ParseSpeedModeStop | src/MKSServoCAN.cpp:330 | speedModeStop reads back as the stop |
| Commands.ParsePosRelativeStop | src/MKSServoCAN.cpp:336 | posRelativeStop reads back as the stop |
| Commands.ParsePosAbsoluteStop | src/MKSServoCAN.cpp:341 | posAbsoluteStop reads back as the stop |
| Commands.ParsePosAxisStop | src/MKSServoCAN.cpp:346 | posAxisStop reads back as the stop |
| Commands.ParseFieldCommand | src/MKSServoCAN.cpp:285-318 | every command with a multi-byte field reads back as itself |
| Commands.ParseMotion | src/MKSServoCAN.cpp:327-346 | every motion command reads back as its canonical form |
| Commands.ParseOfPayload | src/MKSServoCAN.cpp:270-346 | the payload of every command reads back as that command, up to what its layout keeps |
| Commands.SpeedBytesMod | src/MKSServoCAN.cpp:328 | the speed bytes depend on the speed only through its low 12 bits |
| Commands.Low12 | src/MKSServoCAN.cpp:328 | the speed nibble and low byte are those of the speed modulo 4096 |
| Commands.Bytes24Mod | src/MKSServoCAN.cpp:334 | the three position bytes depend on the value only modulo 2^24 |
| Commands.SignedLow24 | src/MKSServoCAN.cpp:338-345 | the signed 24-bit reading of a position keeps its low 24 bits |
| Commands.CanonicalSpeedMode | src/MKSServoCAN.cpp:327-330 | speedMode and its canonical form have the same bytes, and a zero speedMode has the stop's bytes |
| Commands.CanonicalPosRelative | src/MKSServoCAN.cpp:333-336 | the same for posRelative |
| Commands.CanonicalPosAbsolute | src/MKSServoCAN.cpp:338-341 | the same for posAbsolute |
| Commands.CanonicalPosAxis | src/MKSServoCAN.cpp:343-346 | the same for posAxis |
| Commands.PayloadOfCanonical | src/MKSServoCAN.cpp:270-346 | every command has the same bytes as its canonical form; in particular each stop is its move with every field zero |
| Commands.PayloadInjective | src/MKSServoCAN.cpp:270-346 | two commands have the same payload if and only if their canonical forms are equal |
| Commands.SetCurrentExample | src/MKSServoCAN.cpp:285 | `setCurrent(1, 500)` sends the 4-byte frame 83 01 F4 79 |
| Responses.AssembleSigned48 | src/MKSServoCAN.cpp:63-72 | the shift-and-or loop and the fill of bits 48..63 give the six bytes read as a signed 48-bit value |
| Responses.DecodeFrame | src/MKSServoCAN.cpp:49-265 | one pass of the switch, with the 48-bit loop, yields `Decode` |
| Responses.PollResponses | src/MKSServoCAN.cpp:45-265 | every pending frame is reported in arrival order with its identifier, code byte and decoded body; the bus is drained and nothing is sent |
| Responses.Int32AtOfBytes | src/MKSServoCAN.cpp:53-58 | an `int32_t` stored big-endian reads back as itself |
| Responses.Int16AtOfBytes | src/MKSServoCAN.cpp:78 | an `int16_t` stored big-endian reads back as itself |
| Responses.Uint16AtOfBytes | src/MKSServoCAN.cpp:59 | a `uint16_t` stored big-endian reads back as itself |
| Responses.Int48OfBytes | src/MKSServoCAN.cpp:65-71 | a signed 48-bit count stored big-endian reads back as itself |
| Responses.Int48Sign | src/MKSServoCAN.cpp:69-71 | the 48-bit count is negative exactly when bit 47 (the top bit of byte 1) is set, and it lies in [-2^47, 2^47) |
| Responses.Int32Sign | src/MKSServoCAN.cpp:53-58 | a 32-bit reading is negative exactly when the top bit of byte 1 is set |
| Responses.EncoderCarryReply | src/MKSServoCAN.cpp:52-62 | an 8-byte 0x30 reply is read as its `int32_t` carry at bytes 1..4 and its `uint16_t` value at bytes 5..6 |
| Responses.Count48Reply | src/MKSServoCAN.cpp:63-111 | an 8-byte 0x31 or 0x35 reply is read as its signed 48-bit count at bytes 1..6 |
| Responses.SpeedReply | src/MKSServoCAN.cpp:76-82 | a 0x32 reply of at least 4 bytes is read as its `int16_t` speed |
| Responses.Int32Replies | src/MKSServoCAN.cpp:83-122 | a 0x33 or 0x39 reply of at least 6 bytes is read as its `int32_t`; for 0x39 the error is also given in degrees |
| Responses.DegreesPerTurn | src/MKSServoCAN.cpp:118 | 51200 ticks add 360 degrees; 512 ticks are 3.6 degrees |
| Responses.Classification | src/MKSServoCAN.cpp:51-265 | a frame is dumped raw, all `dlc` bytes, exactly when its code is unknown; a known code is skipped exactly when the frame is shorter than the code's minimum length |
| Responses.Locality | src/MKSServoCAN.cpp:51-265 | two buffers that agree on the code byte and on the first `dlc` bytes decode alike, so no branch reads past the frame |
| Responses.StatusTables | src/MKSServoCAN.cpp:129-257 | each status byte names the table entry it indexes and is "Unknown" past the table, because every bound in the source equals its table's length |
| Responses.Acknowledgements | src/MKSServoCAN.cpp:149-217 | each acknowledged code reports success exactly when byte 1 is non-zero, as "Cmd" or as "HomeCmd" |
| Responses.EveryCommandAnswered | src/MKSServoCAN.cpp:270-346 | the code of every command the library sends has a branch in the decoder |
| Responses.AngleErrorExample | src/MKSServoCAN.cpp:112-122 | a 0x39 reply of 512 ticks reads as 3.6 degrees |

## Left out

- The transport (`begin`, the `_bus` pointer, McpCan): it is a list of frames sent and a list of frames pending. The 100 ms send timeout, the send result and the receive timeout are not modelled.
- The printed text: each branch's output is the `Response` value it shows. Format widths, hexadecimal rendering and the header line's text are not modelled; the header is its identifier and code.
- Responses.Degrees: computed exactly on reals. The source converts `err` to `float` and rounds at each step, and those roundings are not modelled.
- Responses.AssembleSigned48: the `int64_t` bit operations are stated as arithmetic. `(v << 8) | b` is `v * 256 + b`, since the low byte of the shifted value is clear. `v |= ~((1 << 48) - 1)` is `v - 2^48` for `v < 2^48`. The shift cannot overflow because `v < 2^40` before it.
- Commands.DirSpeedByte and Commands.TriggerFlags: the `|` of bit fields that do not overlap is written as their sum; `SpeedBitPacking` and `TriggerFlagsPacking` state the resulting bits.
- Frames.CanFrame: `dlc` is taken to be at most 8, as CAN frames are. A received frame's bytes past `dlc` are part of its data field as delivered; `Locality` shows they matter only as the code byte of an empty frame.
