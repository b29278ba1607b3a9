/** Decoding of the frames a motor sends back (src/MKSServoCAN.cpp,
    pollResponses).

    Each received frame is printed as a header with its identifier and its
    first data byte, the response code, followed by what the code's branch
    makes of the rest.  Here the printed text is replaced by the value it
    shows: a `Response`.  The code byte is read whatever the frame's length;
    every other byte is read only when the frame is long enough to hold it. */
module Responses {
  import opened Bytes
  import opened Frames
  import Commands

  /** A status byte looked up in a table of names, or "Unknown" past its end. */
  datatype Status = Named(name: string) | Unknown

  datatype Response =
    | Skipped(code: byte)                  // known code, frame too short: header only
    | EncoderCarry(carry: i32, value: u16)  // 0x30
    | EncoderAddition(addition: i48)        // 0x31
    | Speed(rpm: i16)                       // 0x32
    | Pulses(pulses: i32)                   // 0x33
    | IoStatus(bits: byte)                  // 0x34
    | RawEncoder(raw: i48)                  // 0x35
    | AngleError(ticks: i32, degrees: real) // 0x39
    | EnablePin(enabled: bool)              // 0x3A
    | ZeroStatus(status: Status)            // 0x3B
    | ReleaseProtection(ok: bool)           // 0x3D
    | Protected(yes: bool)                  // 0x3E
    | CommandResult(code: byte, ok: bool)   // "Cmd0x.. status"
    | HomeCommandResult(code: byte, ok: bool) // "HomeCmd0x.. status"
    | GoHomeStage(status: Status)           // 0x91
    | EnTriggerResult(ok: bool)             // 0x9D
    | SystemParam(index: byte, values: seq<byte>) // 0x00
    | MotorStatus(status: Status)           // 0xF1
    | SpeedModeResult(status: Status)       // 0xF6
    | PosRelativeResult(status: Status)     // 0xFD
    | PosAbsoluteResult(status: Status)     // 0xFE
    | PosAxisResult(status: Status)         // 0xF4
    | Raw(bytes: seq<byte>)                 // any other code

  /** One printed line: the header's identifier and code, then the body. */
  datatype Report = Report(id: u32, code: byte, body: Response)

  const ZERO_STATUS: seq<string> := ["Going", "Success", "Fail"]
  const HOME_STAGE: seq<string> := ["Fail", "Start", "Success"]
  const MOTOR_STATUS: seq<string> :=
    ["Fail", "Stop", "SpeedUp", "SpeedDown", "Full", "Homing", "Calibrating"]
  const SPEED_MODE_STATUS: seq<string> := ["Fail", "Running", "StopStart", "StopOK"]
  const POS_RELATIVE_STATUS: seq<string> := ["Run fail", "Run starting", "Run complete", "End-stop"]
  const POS_ABSOLUTE_STATUS: seq<string> := ["Fail", "Start", "Complete", "End-limit"]
  const POS_AXIS_STATUS: seq<string> := ["Fail", "Start", "Complete", "End-limit"]

  /** `st < bound ? table[st] : "Unknown"`, with the bound the source writes
      next to each table; the precondition is that indexing stays inside it. */
  function Lookup(table: seq<string>, bound: nat, st: byte): Status
    requires bound <= |table|
  {
    if st < bound then Named(table[st]) else Unknown
  }

  /** `int32_t` of four big-endian bytes. */
  function Int32At(data: Buffer, k: nat): i32
    requires k + 4 <= 8
  {
    Pow256Widths();
    Signed(FromBE(data[k..k + 4]), TWO_32)
  }

  /** `int16_t` of two big-endian bytes. */
  function Int16At(data: Buffer, k: nat): i16
    requires k + 2 <= 8
  {
    Pow256Widths();
    Signed(FromBE(data[k..k + 2]), TWO_16)
  }

  /** `uint16_t` of two big-endian bytes. */
  function Uint16At(data: Buffer, k: nat): u16
    requires k + 2 <= 8
  {
    Pow256Widths();
    FromBE(data[k..k + 2])
  }

  /** The 48-bit count at bytes 1..6, sign-extended. */
  function Int48(data: Buffer): i48
  {
    Pow256Widths();
    Signed(FromBE(data[1..7]), TWO_48)
  }

  /** `err * 360.0f / 51200.0f`, computed exactly. */
  function Degrees(ticks: int): real
  {
    ticks as real * 360.0 / 51200.0
  }

  /** The body printed for a frame of length `dlc` whose data field holds
      `data`. */
  function Decode(dlc: Length, data: Buffer): Response
  {
    var code := data[0];
    match code
    case 0x30 =>
      if dlc >= 8 then EncoderCarry(Int32At(data, 1), Uint16At(data, 5)) else Skipped(code)
    case 0x31 => if dlc >= 8 then EncoderAddition(Int48(data)) else Skipped(code)
    case 0x32 => if dlc >= 4 then Speed(Int16At(data, 1)) else Skipped(code)
    case 0x33 => if dlc >= 6 then Pulses(Int32At(data, 1)) else Skipped(code)
    case 0x34 => if dlc >= 2 then IoStatus(data[1]) else Skipped(code)
    case 0x35 => if dlc >= 8 then RawEncoder(Int48(data)) else Skipped(code)
    case 0x39 =>
      if dlc >= 6 then AngleError(Int32At(data, 1), Degrees(Int32At(data, 1))) else Skipped(code)
    case 0x3A => if dlc >= 2 then EnablePin(data[1] != 0) else Skipped(code)
    case 0x3B => if dlc >= 2 then ZeroStatus(Lookup(ZERO_STATUS, 3, data[1])) else Skipped(code)
    case 0x3D => if dlc >= 2 then ReleaseProtection(data[1] != 0) else Skipped(code)
    case 0x3E => if dlc >= 2 then Protected(data[1] != 0) else Skipped(code)
    case 0x80 | 0x82 | 0x83 | 0x84 | 0x85 | 0x86 | 0x87 | 0x88 | 0x89 | 0x9B
       | 0x8A | 0x8B | 0x8C | 0x8D | 0x8F =>
      if dlc >= 2 then CommandResult(code, data[1] != 0) else Skipped(code)
    case 0x90 | 0x92 | 0x94 | 0x9E =>
      if dlc >= 2 then HomeCommandResult(code, data[1] != 0) else Skipped(code)
    case 0x91 => if dlc >= 2 then GoHomeStage(Lookup(HOME_STAGE, 3, data[1])) else Skipped(code)
    case 0x9A | 0x3F | 0x41 =>
      if dlc >= 2 then CommandResult(code, data[1] != 0) else Skipped(code)
    case 0x9D => if dlc >= 2 then EnTriggerResult(data[1] != 0) else Skipped(code)
    case 0x00 => if dlc >= 2 then SystemParam(data[1], data[2..dlc]) else Skipped(code)
    case 0xF1 => if dlc >= 2 then MotorStatus(Lookup(MOTOR_STATUS, 7, data[1])) else Skipped(code)
    case 0xF3 | 0xF7 | 0xFF =>
      if dlc >= 2 then CommandResult(code, data[1] != 0) else Skipped(code)
    case 0xF6 =>
      if dlc >= 2 then SpeedModeResult(Lookup(SPEED_MODE_STATUS, 4, data[1])) else Skipped(code)
    case 0xFD =>
      if dlc >= 2 then PosRelativeResult(Lookup(POS_RELATIVE_STATUS, 4, data[1])) else Skipped(code)
    case 0xFE =>
      if dlc >= 2 then PosAbsoluteResult(Lookup(POS_ABSOLUTE_STATUS, 4, data[1])) else Skipped(code)
    case 0xF4 =>
      if dlc >= 2 then PosAxisResult(Lookup(POS_AXIS_STATUS, 4, data[1])) else Skipped(code)
    case _ => Raw(data[..dlc])
  }

  // ---------------------------------------------------------------------
  // The receive loop

  /** The fold of the 0x31 and 0x35 branches in an `int64_t`:
      `v = (v << 8) | data[i]` for bytes 1..6, then `v |= ~((1 << 48) - 1)`
      when bit 47 of `v` is set.  Before each shift `v` is below 2^40, so the
      shift cannot overflow and leaves the low byte clear for the OR, which
      is then an addition; after the loop `v` is below 2^48, so the OR with
      bits 48..63 set is a subtraction of 2^48. */
  method AssembleSigned48(data: Buffer) returns (v: int)
    ensures v == Int48(data)
  {
    v := 0;
    for i := 1 to 7
      invariant v == FromBE(data[1..i])
    {
      assert data[1..i + 1][..i - 1] == data[1..i];
      v := v * 0x100 + data[i];
    }
    Pow256Widths();
    if (v / TWO_47) % 2 == 1 {
      v := v - TWO_48;
    }
  }

  /** One switch of pollResponses, with the 48-bit counts assembled by the
      loop of the source. */
  method DecodeFrame(f: CanFrame) returns (r: Response)
    ensures r == Decode(f.dlc, f.data)
  {
    var code := f.data[0];
    if (code == 0x31 || code == 0x35) && f.dlc >= 8 {
      var v := AssembleSigned48(f.data);
      r := if code == 0x31 then EncoderAddition(v) else RawEncoder(v);
    } else {
      r := Decode(f.dlc, f.data);
    }
  }

  /** pollResponses: receive until the transport has nothing left, and
      report every frame, in arrival order. */
  method PollResponses(bus: Bus) returns (log: seq<Report>)
    modifies bus
    ensures bus.pending == [] && bus.sent == old(bus.sent)
    ensures |log| == |old(bus.pending)|
    ensures forall i | 0 <= i < |log| ::
      log[i] == Report(old(bus.pending)[i].id, old(bus.pending)[i].data[0],
                       Decode(old(bus.pending)[i].dlc, old(bus.pending)[i].data))
  {
    log := [];
    var ok, rx := bus.Receive();
    while ok
      invariant bus.sent == old(bus.sent)
      invariant ok ==> |log| < |old(bus.pending)| && rx == old(bus.pending)[|log|]
                       && bus.pending == old(bus.pending)[|log| + 1..]
      invariant !ok ==> bus.pending == [] && |log| == |old(bus.pending)|
      invariant forall i | 0 <= i < |log| ::
        log[i] == Report(old(bus.pending)[i].id, old(bus.pending)[i].data[0],
                       Decode(old(bus.pending)[i].dlc, old(bus.pending)[i].data))
      decreases |bus.pending| + (if ok then 1 else 0)
    {
      var body := DecodeFrame(rx);
      log := log + [Report(rx.id, rx.data[0], body)];
      ok, rx := bus.Receive();
    }
  }

  // ---------------------------------------------------------------------
  // Readings: what the motor stores is what is printed

  lemma Int32AtOfBytes(data: Buffer, k: nat, v: i32)
    requires k + 4 <= 8 && data[k..k + 4] == ToBE(Unsigned(v, TWO_32), 4)
    ensures Int32At(data, k) == v
  {
    Pow256Widths();
    FromBEOfToBE(Unsigned(v, TWO_32), 4);
    SignedOfUnsigned(v, TWO_32);
  }

  lemma Int16AtOfBytes(data: Buffer, k: nat, v: i16)
    requires k + 2 <= 8 && data[k..k + 2] == ToBE(Unsigned(v, TWO_16), 2)
    ensures Int16At(data, k) == v
  {
    Pow256Widths();
    FromBEOfToBE(Unsigned(v, TWO_16), 2);
    SignedOfUnsigned(v, TWO_16);
  }

  lemma Uint16AtOfBytes(data: Buffer, k: nat, v: u16)
    requires k + 2 <= 8 && data[k..k + 2] == ToBE(v, 2)
    ensures Uint16At(data, k) == v
  {
    Pow256Widths();
    FromBEOfToBE(v, 2);
  }

  lemma Int48OfBytes(data: Buffer, v: i48)
    requires data[1..7] == ToBE(Unsigned(v, TWO_48), 6)
    ensures Int48(data) == v
  {
    Pow256Widths();
    FromBEOfToBE(Unsigned(v, TWO_48), 6);
    SignedOfUnsigned(v, TWO_48);
  }

  /** Sign extension from bit 47: the count is negative exactly when the top
      bit of byte 1 is set, and it always lies in [-2^47, 2^47). */
  lemma Int48Sign(data: Buffer)
    ensures Int48(data) < 0 <==> data[1] >= 0x80
    ensures -TWO_47 <= Int48(data) < TWO_47
  {
    Pow256Widths();
    SignOfFirstByte(data[1..7]);
  }

  /** The same for the 32-bit readings at bytes 1..4. */
  lemma Int32Sign(data: Buffer)
    ensures Int32At(data, 1) < 0 <==> data[1] >= 0x80
  {
    Pow256Widths();
    SignOfFirstByte(data[1..5]);
  }

  /** 0x30: the carry as `int32_t` at bytes 1..4, the value as `uint16_t`
      at bytes 5..6. */
  lemma EncoderCarryReply(data: Buffer, carry: i32, value: u16)
    requires data[0] == 0x30
    requires data[1..5] == ToBE(Unsigned(carry, TWO_32), 4) && data[5..7] == ToBE(value, 2)
    ensures Decode(8, data) == EncoderCarry(carry, value)
  {
    Int32AtOfBytes(data, 1, carry);
    Uint16AtOfBytes(data, 5, value);
  }

  /** 0x31 and 0x35: a 48-bit count at bytes 1..6. */
  lemma Count48Reply(data: Buffer, v: i48)
    requires data[1..7] == ToBE(Unsigned(v, TWO_48), 6)
    ensures data[0] == 0x31 ==> Decode(8, data) == EncoderAddition(v)
    ensures data[0] == 0x35 ==> Decode(8, data) == RawEncoder(v)
  {
    Int48OfBytes(data, v);
  }

  /** 0x32: the speed as `int16_t` at bytes 1..2, in frames of 4 bytes or
      more. */
  lemma SpeedReply(dlc: Length, data: Buffer, rpm: i16)
    requires dlc >= 4 && data[0] == 0x32 && data[1..3] == ToBE(Unsigned(rpm, TWO_16), 2)
    ensures Decode(dlc, data) == Speed(rpm)
  {
    Int16AtOfBytes(data, 1, rpm);
  }

  /** 0x33 and 0x39: an `int32_t` at bytes 1..4, in frames of 6 bytes or
      more; the angle error also in degrees. */
  lemma Int32Replies(dlc: Length, data: Buffer, v: i32)
    requires dlc >= 6 && data[1..5] == ToBE(Unsigned(v, TWO_32), 4)
    ensures data[0] == 0x33 ==> Decode(dlc, data) == Pulses(v)
    ensures data[0] == 0x39 ==> Decode(dlc, data) == AngleError(v, Degrees(v))
  {
    Int32AtOfBytes(data, 1, v);
  }

  /** 51200 ticks make one turn of 360 degrees. */
  lemma DegreesPerTurn(ticks: int)
    ensures Degrees(ticks + 51200) == Degrees(ticks) + 360.0
    ensures Degrees(0) == 0.0 && Degrees(51200) == 360.0 && Degrees(512) == 3.6
  {
  }

  // ---------------------------------------------------------------------
  // Which branch a frame takes

  /** The response codes the switch knows. */
  predicate Known(code: byte)
  {
    code == 0x00 || 0x30 <= code <= 0x35 || 0x39 <= code <= 0x3B || code == 0x3D
    || code == 0x3E || code == 0x3F || code == 0x41 || code == 0x80 || 0x82 <= code <= 0x8D
    || code == 0x8F || 0x90 <= code <= 0x92 || code == 0x94 || 0x9A <= code <= 0x9B
    || 0x9D <= code <= 0x9E || code == 0xF1 || code == 0xF3 || code == 0xF4
    || code == 0xF6 || code == 0xF7 || 0xFD <= code <= 0xFF
  }

  /** The shortest frame each known code's branch prints anything for: one
      byte past the last byte the branch reads. */
  function MinLength(code: byte): nat
  {
    if code == 0x30 || code == 0x31 || code == 0x35 then 8
    else if code == 0x33 || code == 0x39 then 6
    else if code == 0x32 then 4
    else 2
  }

  /** An unknown code is dumped raw, all `dlc` bytes of it; a known code is
      decoded when the frame is long enough and otherwise skipped. */
  lemma Classification(dlc: Length, data: Buffer)
    ensures Decode(dlc, data).Raw? <==> !Known(data[0])
    ensures Decode(dlc, data).Raw? ==> Decode(dlc, data).bytes == data[..dlc]
    ensures Known(data[0]) ==> (Decode(dlc, data).Skipped? <==> dlc < MinLength(data[0]))
    ensures Decode(dlc, data).Skipped? ==> Decode(dlc, data).code == data[0]
  {
  }

  /** Nothing past the frame's length is read, except the code byte of an
      empty frame: two buffers that agree on the code and on the first `dlc`
      bytes decode alike. */
  lemma Locality(dlc: Length, d1: Buffer, d2: Buffer)
    requires d1[0] == d2[0] && d1[..dlc] == d2[..dlc]
    ensures Decode(dlc, d1) == Decode(dlc, d2)
  {
    if dlc >= 2 {
      assert d1[1] == d2[1];
      assert d1[2..dlc] == d2[2..dlc];
    }
    if dlc >= 4 {
      assert d1[1..3] == d2[1..3];
    }
    if dlc >= 6 {
      assert d1[1..5] == d2[1..5];
    }
    if dlc >= 8 {
      assert d1[5..7] == d2[5..7];
      assert d1[1..7] == d2[1..7];
    }
  }

  /** The status-table codes and their tables. */
  function TableOf(code: byte): seq<string>
  {
    if code == 0x3B then ZERO_STATUS
    else if code == 0x91 then HOME_STAGE
    else if code == 0xF1 then MOTOR_STATUS
    else if code == 0xF6 then SPEED_MODE_STATUS
    else if code == 0xFD then POS_RELATIVE_STATUS
    else if code == 0xFE then POS_ABSOLUTE_STATUS
    else if code == 0xF4 then POS_AXIS_STATUS
    else []
  }

  /** Every bound written beside a table is its length: each name can be
      printed, and no status byte indexes past the table. */
  lemma StatusTables(dlc: Length, data: Buffer)
    requires dlc >= 2 && TableOf(data[0]) != []
    ensures Decode(dlc, data).ZeroStatus? || Decode(dlc, data).GoHomeStage?
         || Decode(dlc, data).MotorStatus? || Decode(dlc, data).SpeedModeResult?
         || Decode(dlc, data).PosRelativeResult? || Decode(dlc, data).PosAbsoluteResult?
         || Decode(dlc, data).PosAxisResult?
    ensures Decode(dlc, data).status
         == if data[1] < |TableOf(data[0])| then Named(TableOf(data[0])[data[1]]) else Unknown
  {
  }

  /** The codes answered with an OK/Fail byte, as "Cmd" or "HomeCmd". */
  predicate Acknowledged(code: byte)
  {
    code == 0x80 || 0x82 <= code <= 0x8D || code == 0x8F || code == 0x9B
    || code == 0x9A || code == 0x3F || code == 0x41 || code == 0xF3 || code == 0xF7 || code == 0xFF
  }

  predicate HomeAcknowledged(code: byte)
  {
    code == 0x90 || code == 0x92 || code == 0x94 || code == 0x9E
  }

  /** An acknowledgement reports success exactly when byte 1 is non-zero. */
  lemma Acknowledgements(dlc: Length, data: Buffer)
    requires dlc >= 2
    ensures Acknowledged(data[0]) ==> Decode(dlc, data) == CommandResult(data[0], data[1] != 0)
    ensures HomeAcknowledged(data[0]) ==> Decode(dlc, data) == HomeCommandResult(data[0], data[1] != 0)
  {
  }

  /** Every command the library sends has a branch for the motor's reply,
      which echoes the command code. */
  lemma EveryCommandAnswered(c: Commands.Command)
    ensures Known(Commands.Payload(c)[0])
  {
  }

  /** The angle-error reply for 512 ticks, 3.6 degrees. */
  lemma AngleErrorExample()
    ensures Decode(6, [0x39, 0x00, 0x00, 0x02, 0x00, 0x3B, 0, 0]) == AngleError(512, 3.6)
  {
    var data: Buffer := [0x39, 0x00, 0x00, 0x02, 0x00, 0x3B, 0, 0];
    Int32AtOfBytes(data, 1, 512);
  }
}
