/** The command catalog (src/MKSServoCAN.cpp lines 269-346): each command
    is a fixed byte layout, a command code followed by its parameters, with
    multi-byte fields big-endian and flags packed into single bytes.

    Each C++ builder `foo(id, args...)` is the constructor `Foo(args...)` of
    `Command`, its byte layout is `Payload(Foo(args...))`, and the call
    itself is `Send(bus, id, Foo(args...))`.  A few parameters are renamed
    because a datatype's fields of one name must share one type:
    setEnActive's `en` is `level`, setCanRate's `r` is `rate`,
    setNoLimitReturn's `r` is `dist` and posAxis's `r` is `axis`.

    `ParseCommand` is the other side of the wire: how a motor reads a
    payload back.  It is the reference against which the layouts are
    proved unambiguous. */
module Commands {
  import opened Bytes
  import opened Wrappers
  import opened Frames
  import opened Checksum

  datatype Command =
    // read status commands
    | ReadEncoderCarry
    | ReadEncoderAdd
    | ReadSpeed
    | ReadPulses
    | ReadIOStatus
    | ReadRawEncoder
    | ReadAngleError
    | ReadEnablePin
    | ReadZeroStatus
    | ReleaseProtection
    | ReadProtectState
    // system parameter commands
    | Calibrate
    | SetWorkMode(m: byte)
    | SetCurrent(ma: u16)
    | SetMicrostep(ms: byte)
    | SetEnActive(level: byte)
    | SetDirection(dir: byte)
    | SetAutoSleep(e: bool)
    | SetProtect(e: bool)
    | SetInterpolator(e: bool)
    | SetHoldCurrent(pct: byte)
    | SetCanRate(rate: byte)
    | SetCanId(nid: u16)
    | SetCanResponse(rsp: bool, act: bool)
    | SetGroupId(gid: u16)
    | SetKeylock(l: bool)
    // homing and zero
    | SetHomeParams(t: byte, d: byte, s: u16, el: bool, m: byte)
    | GoHome
    | SetZeroPoint
    | SetNoLimitReturn(dist: u32, ma: u16)
    | SetLimitRemap(e: bool)
    | SetZeroMode(m: byte, en: bool, sp: byte, dir: byte)
    // maintenance
    | RestoreDefaults
    | Restart
    | SetEnTrigger(et: bool, pp: bool, tim: u16, err: u16)
    | ReadSystemParam(c: byte)
    | QueryStatus
    | EnableMotor(en: bool)
    | EmergencyStop
    // motion
    | SpeedMode(s: u16, a: byte, ccw: bool)
    | SpeedModeStop
    | SpeedState(save: bool)
    | PosRelative(p: u32, s: u16, a: byte, ccw: bool)
    | PosRelativeStop
    | PosAbsolute(ax: i32, s: u16, a: byte)
    | PosAbsoluteStop
    | PosAxis(axis: i32, s: u16, a: byte)
    | PosAxisStop

  /** `uint8_t(b)` of a `bool`. */
  function BoolByte(b: bool): byte
  {
    if b then 1 else 0
  }

  /** `uint8_t((ccw ? 0x80 : 0) | ((s >> 8) & 0x0F))`: the direction in bit 7
      and bits 11..8 of the speed in bits 3..0.  The two parts occupy
      different bits, so the OR is their sum (`SpeedBitPacking`). */
  function DirSpeedByte(ccw: bool, s: u16): byte
  {
    (if ccw then 0x80 else 0) + (s / 0x100) % 0x10
  }

  /** `uint8_t((pp ? 0x02 : 0) | (et ? 0x01 : 0))`, again an OR of disjoint
      bits (`TriggerFlagsPacking`). */
  function TriggerFlags(et: bool, pp: bool): byte
  {
    (if pp then 0x02 else 0) + (if et then 0x01 else 0)
  }

  /** The payload each builder hands to sendFrame.  Every layout leaves room
      for the checksum in the 8-byte data field. */
  function Payload(c: Command): (p: seq<byte>)
    ensures 1 <= |p| <= 7
  {
    match c
    case ReadEncoderCarry => [0x30]
    case ReadEncoderAdd => [0x31]
    case ReadSpeed => [0x32]
    case ReadPulses => [0x33]
    case ReadIOStatus => [0x34]
    case ReadRawEncoder => [0x35]
    case ReadAngleError => [0x39]
    case ReadEnablePin => [0x3A]
    case ReadZeroStatus => [0x3B]
    case ReleaseProtection => [0x3D]
    case ReadProtectState => [0x3E]
    case Calibrate => [0x80, 0x00]
    case SetWorkMode(m) => [0x82, m]
    case SetCurrent(ma) => [0x83, Lo8(ma / 0x100), Lo8(ma)]
    case SetMicrostep(ms) => [0x84, ms]
    case SetEnActive(level) => [0x85, level]
    case SetDirection(dir) => [0x86, dir]
    case SetAutoSleep(e) => [0x87, BoolByte(e)]
    case SetProtect(e) => [0x88, BoolByte(e)]
    case SetInterpolator(e) => [0x89, BoolByte(e)]
    case SetHoldCurrent(pct) => [0x9B, pct]
    case SetCanRate(rate) => [0x8A, rate]
    case SetCanId(nid) => [0x8B, Lo8(nid / 0x100), Lo8(nid)]
    case SetCanResponse(rsp, act) => [0x8C, BoolByte(rsp), BoolByte(act)]
    case SetGroupId(gid) => [0x8D, Lo8(gid / 0x100), Lo8(gid)]
    case SetKeylock(l) => [0x8F, BoolByte(l)]
    case SetHomeParams(t, d, s, el, m) => [0x90, t, d, Lo8(s / 0x100), Lo8(s), BoolByte(el), m]
    case GoHome => [0x91]
    case SetZeroPoint => [0x92]
    case SetNoLimitReturn(dist, ma) =>
      [0x94, Lo8(dist / 0x100_0000), Lo8(dist / 0x1_0000), Lo8(dist / 0x100), Lo8(dist),
       Lo8(ma / 0x100), Lo8(ma)]
    case SetLimitRemap(e) => [0x9E, BoolByte(e)]
    case SetZeroMode(m, en, sp, dir) => [0x9A, m, BoolByte(en), sp, dir]
    case RestoreDefaults => [0x3F]
    case Restart => [0x41]
    case SetEnTrigger(et, pp, tim, err) =>
      [0x9D, TriggerFlags(et, pp), Lo8(tim / 0x100), Lo8(tim), Lo8(err / 0x100), Lo8(err)]
    case ReadSystemParam(c) => [0x00, c]
    case QueryStatus => [0xF1]
    case EnableMotor(en) => [0xF3, BoolByte(en)]
    case EmergencyStop => [0xF7]
    case SpeedMode(s, a, ccw) => [0xF6, DirSpeedByte(ccw, s), Lo8(s), a]
    case SpeedModeStop => [0xF6, 0, 0, 0]
    case SpeedState(save) => [0xFF, if save then 0xC8 else 0xCA]
    case PosRelative(p, s, a, ccw) =>
      [0xFD, DirSpeedByte(ccw, s), Lo8(s), a, Lo8(p / 0x1_0000), Lo8(p / 0x100), Lo8(p)]
    case PosRelativeStop => [0xFD, 0, 0, 0, 0, 0, 0]
    case PosAbsolute(ax, s, a) =>
      [0xFE, Lo8(s / 0x100), Lo8(s), a, Lo8(ax / 0x1_0000), Lo8(ax / 0x100), Lo8(ax)]
    case PosAbsoluteStop => [0xFE, 0, 0, 0, 0, 0, 0]
    case PosAxis(axis, s, a) =>
      [0xF4, Lo8(s / 0x100), Lo8(s), a, Lo8(axis / 0x1_0000), Lo8(axis / 0x100), Lo8(axis)]
    case PosAxisStop => [0xF4, 0, 0, 0, 0, 0, 0]
  }

  /** A builder call: the frame of the command's payload goes to the bus. */
  method Send(bus: Bus, id: u32, c: Command)
    modifies bus
    ensures bus.sent == old(bus.sent) + [Frame(id, Payload(c))]
    ensures bus.pending == old(bus.pending)
  {
    SendFrame(bus, id, Payload(c));
  }

  // ---------------------------------------------------------------------
  // The receiving side

  /** A flag byte as written by `uint8_t(bool)`. */
  function FlagOf(b: byte): Option<bool>
  {
    if b == 0 then Some(false) else if b == 1 then Some(true) else None
  }

  /** A speed byte pair as packed by speedMode and posRelative: direction in
      bit 7, bits 6..4 clear, speed bits 11..8 in bits 3..0. */
  predicate IsDirSpeed(b: byte)
  {
    b % 0x80 < 0x10
  }

  function ParseFlag(b: byte, k: bool -> Command): Option<Command>
  {
    match FlagOf(b)
    case Some(e) => Some(k(e))
    case None => None
  }

  /** How a motor reads a command payload (without its checksum): the code,
      an exact length, and each field where its builder puts it.  A motion
      payload whose fields are all zero is read as the stop. */
  function ParseCommand(p: seq<byte>): Option<Command>
  {
    if p == [] then None
    else
      var n := |p|;
      match p[0]
      case 0x30 => if n == 1 then Some(ReadEncoderCarry) else None
      case 0x31 => if n == 1 then Some(ReadEncoderAdd) else None
      case 0x32 => if n == 1 then Some(ReadSpeed) else None
      case 0x33 => if n == 1 then Some(ReadPulses) else None
      case 0x34 => if n == 1 then Some(ReadIOStatus) else None
      case 0x35 => if n == 1 then Some(ReadRawEncoder) else None
      case 0x39 => if n == 1 then Some(ReadAngleError) else None
      case 0x3A => if n == 1 then Some(ReadEnablePin) else None
      case 0x3B => if n == 1 then Some(ReadZeroStatus) else None
      case 0x3D => if n == 1 then Some(ReleaseProtection) else None
      case 0x3E => if n == 1 then Some(ReadProtectState) else None
      case 0x80 => if n == 2 && p[1] == 0 then Some(Calibrate) else None
      case 0x82 => if n == 2 then Some(SetWorkMode(p[1])) else None
      case 0x83 => if n == 3 then Some(SetCurrent(FromBE(p[1..3]))) else None
      case 0x84 => if n == 2 then Some(SetMicrostep(p[1])) else None
      case 0x85 => if n == 2 then Some(SetEnActive(p[1])) else None
      case 0x86 => if n == 2 then Some(SetDirection(p[1])) else None
      case 0x87 => if n == 2 then ParseFlag(p[1], e => SetAutoSleep(e)) else None
      case 0x88 => if n == 2 then ParseFlag(p[1], e => SetProtect(e)) else None
      case 0x89 => if n == 2 then ParseFlag(p[1], e => SetInterpolator(e)) else None
      case 0x9B => if n == 2 then Some(SetHoldCurrent(p[1])) else None
      case 0x8A => if n == 2 then Some(SetCanRate(p[1])) else None
      case 0x8B => if n == 3 then Some(SetCanId(FromBE(p[1..3]))) else None
      case 0x8C =>
        if n == 3 && FlagOf(p[1]).Some? && FlagOf(p[2]).Some?
        then Some(SetCanResponse(p[1] == 1, p[2] == 1)) else None
      case 0x8D => if n == 3 then Some(SetGroupId(FromBE(p[1..3]))) else None
      case 0x8F => if n == 2 then ParseFlag(p[1], l => SetKeylock(l)) else None
      case 0x90 =>
        if n == 7 && FlagOf(p[5]).Some?
        then Some(SetHomeParams(p[1], p[2], FromBE(p[3..5]), p[5] == 1, p[6])) else None
      case 0x91 => if n == 1 then Some(GoHome) else None
      case 0x92 => if n == 1 then Some(SetZeroPoint) else None
      case 0x94 => if n == 7 then Some(SetNoLimitReturn(FromBE(p[1..5]), FromBE(p[5..7]))) else None
      case 0x9E => if n == 2 then ParseFlag(p[1], e => SetLimitRemap(e)) else None
      case 0x9A =>
        if n == 5 && FlagOf(p[2]).Some?
        then Some(SetZeroMode(p[1], p[2] == 1, p[3], p[4])) else None
      case 0x3F => if n == 1 then Some(RestoreDefaults) else None
      case 0x41 => if n == 1 then Some(Restart) else None
      case 0x9D =>
        if n == 6 && p[1] < 4
        then Some(SetEnTrigger(p[1] % 2 == 1, p[1] / 2 == 1, FromBE(p[2..4]), FromBE(p[4..6])))
        else None
      case 0x00 => if n == 2 then Some(ReadSystemParam(p[1])) else None
      case 0xF1 => if n == 1 then Some(QueryStatus) else None
      case 0xF3 => if n == 2 then ParseFlag(p[1], en => EnableMotor(en)) else None
      case 0xF7 => if n == 1 then Some(EmergencyStop) else None
      case 0xF6 =>
        if n != 4 || !IsDirSpeed(p[1]) then None
        else
          var s, a, ccw := FromBE([p[1] % 0x10, p[2]]), p[3], p[1] >= 0x80;
          if s == 0 && a == 0 && !ccw then Some(SpeedModeStop) else Some(SpeedMode(s, a, ccw))
      case 0xFF =>
        if n == 2 && (p[1] == 0xC8 || p[1] == 0xCA) then Some(SpeedState(p[1] == 0xC8)) else None
      case 0xFD =>
        if n != 7 || !IsDirSpeed(p[1]) then None
        else
          var s, a, ccw, dist := FromBE([p[1] % 0x10, p[2]]), p[3], p[1] >= 0x80, FromBE(p[4..7]);
          if dist == 0 && s == 0 && a == 0 && !ccw then Some(PosRelativeStop)
          else Some(PosRelative(dist, s, a, ccw))
      case 0xFE =>
        if n != 7 then None
        else
          var s, a, u := FromBE(p[1..3]), p[3], FromBE(p[4..7]);
          if u == 0 && s == 0 && a == 0 then Some(PosAbsoluteStop)
          else Some(PosAbsolute(Signed(u, TWO_24), s, a))
      case 0xF4 =>
        if n != 7 then None
        else
          var s, a, u := FromBE(p[1..3]), p[3], FromBE(p[4..7]);
          if u == 0 && s == 0 && a == 0 then Some(PosAxisStop)
          else Some(PosAxis(Signed(u, TWO_24), s, a))
      case _ => None
  }

  /** What of a command survives in its payload: speed mode and relative
      moves keep the low 12 bits of the speed, relative moves the low 24 bits
      of the distance, absolute and axis moves the low 24 bits of the
      position, which the motor reads as a signed 24-bit value; and a move
      whose fields are all zero is the same bytes as the matching stop. */
  function Canonical(c: Command): Command
  {
    match c
    case SpeedMode(s, a, ccw) =>
      if s % 0x1000 == 0 && a == 0 && !ccw then SpeedModeStop
      else SpeedMode(s % 0x1000, a, ccw)
    case PosRelative(p, s, a, ccw) =>
      if p % TWO_24 == 0 && s % 0x1000 == 0 && a == 0 && !ccw then PosRelativeStop
      else PosRelative(p % TWO_24, s % 0x1000, a, ccw)
    case PosAbsolute(ax, s, a) =>
      if ax % TWO_24 == 0 && s == 0 && a == 0 then PosAbsoluteStop
      else PosAbsolute(Signed(ax % TWO_24, TWO_24), s, a)
    case PosAxis(axis, s, a) =>
      if axis % TWO_24 == 0 && s == 0 && a == 0 then PosAxisStop
      else PosAxis(Signed(axis % TWO_24, TWO_24), s, a)
    case _ => c
  }

  // ---------------------------------------------------------------------
  // Properties of the layouts

  /** speedMode and posRelative: byte 1 carries the direction in bit 7 and
      speed bits 11..8 in bits 3..0, and bits 6..4 are always clear. */
  lemma SpeedBitPacking(ccw: bool, s: u16)
    ensures Bit(DirSpeedByte(ccw, s), 7) == ccw
    ensures !Bit(DirSpeedByte(ccw, s), 6) && !Bit(DirSpeedByte(ccw, s), 5) && !Bit(DirSpeedByte(ccw, s), 4)
    ensures DirSpeedByte(ccw, s) % 0x10 == (s / 0x100) % 0x10
  {
    DirBits(if ccw then 0x80 else 0, (s / 0x100) % 0x10);
  }

  lemma DirBits(d: byte, n: byte)
    requires (d == 0 || d == 0x80) && n < 0x10
    ensures Bit(d + n, 7) == (d == 0x80)
    ensures !Bit(d + n, 6) && !Bit(d + n, 5) && !Bit(d + n, 4)
  {
    assert Pow2(4) == 0x10 && Pow2(5) == 0x20 && Pow2(6) == 0x40 && Pow2(7) == 0x80;
    if d == 0 {
      assert n / 0x80 == 0 && n / 0x40 == 0 && n / 0x20 == 0 && n / 0x10 == 0;
    } else {
      assert (d + n) / 0x80 == 1 && (d + n) / 0x40 == 2 && (d + n) / 0x20 == 4 && (d + n) / 0x10 == 8;
    }
  }

  /** Bytes 1..2 of speedMode and posRelative hold exactly the low 12 bits
      of the speed. */
  lemma SpeedKeeps12Bits(ccw: bool, s: u16)
    ensures FromBE([DirSpeedByte(ccw, s) % 0x10, Lo8(s)]) == s % 0x1000
  {
    var q := s / 0x100;
    assert DirSpeedByte(ccw, s) % 0x10 == q % 0x10;
    FromBE2(q % 0x10, s % 0x100);
    assert s == q * 0x100 + s % 0x100;
    assert q == (q / 0x10) * 0x10 + q % 0x10;
    assert s == (q / 0x10) * 0x1000 + (q % 0x10 * 0x100 + s % 0x100);
  }

  /** setEnTrigger: bit 0 of byte 1 is `et`, bit 1 is `pp`, the other bits
      are clear. */
  lemma TriggerFlagsPacking(et: bool, pp: bool)
    ensures TriggerFlags(et, pp) < 4
    ensures Bit(TriggerFlags(et, pp), 0) == et && Bit(TriggerFlags(et, pp), 1) == pp
  {
  }

  /** setCurrent, setCanId and setGroupId split their 16-bit value into
      bytes 1..2, which fold back to it. */
  lemma Fields16(v: u16)
    ensures FromBE(Payload(SetCurrent(v))[1..3]) == v
    ensures FromBE(Payload(SetCanId(v))[1..3]) == v
    ensures FromBE(Payload(SetGroupId(v))[1..3]) == v
  {
    assert Payload(SetCurrent(v))[1..3] == [Lo8(v / 0x100), Lo8(v)];
    assert Payload(SetCanId(v))[1..3] == [Lo8(v / 0x100), Lo8(v)];
    assert Payload(SetGroupId(v))[1..3] == [Lo8(v / 0x100), Lo8(v)];
    Field16(v);
  }

  /** setHomeParams: the speed at bytes 3..4. */
  lemma HomeParamsFields(t: byte, d: byte, s: u16, el: bool, m: byte)
    ensures FromBE(Payload(SetHomeParams(t, d, s, el, m))[3..5]) == s
  {
    assert Payload(SetHomeParams(t, d, s, el, m))[3..5] == [Lo8(s / 0x100), Lo8(s)];
    Field16(s);
  }

  /** setNoLimitReturn: the 32-bit distance at bytes 1..4, then the 16-bit
      current at bytes 5..6. */
  lemma NoLimitReturnFields(dist: u32, ma: u16)
    ensures FromBE(Payload(SetNoLimitReturn(dist, ma))[1..5]) == dist
    ensures FromBE(Payload(SetNoLimitReturn(dist, ma))[5..7]) == ma
  {
    var p := Payload(SetNoLimitReturn(dist, ma));
    assert p[1..5] == [Lo8(dist / 0x100_0000), Lo8(dist / 0x1_0000), Lo8(dist / 0x100), Lo8(dist)];
    assert p[5..7] == [Lo8(ma / 0x100), Lo8(ma)];
    Field32(dist);
    Field16(ma);
  }

  /** setEnTrigger: the time at bytes 2..3 and the error at bytes 4..5. */
  lemma EnTriggerFields(et: bool, pp: bool, tim: u16, err: u16)
    ensures FromBE(Payload(SetEnTrigger(et, pp, tim, err))[2..4]) == tim
    ensures FromBE(Payload(SetEnTrigger(et, pp, tim, err))[4..6]) == err
  {
    var p := Payload(SetEnTrigger(et, pp, tim, err));
    assert p[2..4] == [Lo8(tim / 0x100), Lo8(tim)];
    assert p[4..6] == [Lo8(err / 0x100), Lo8(err)];
    Field16(tim);
    Field16(err);
  }

  /** posRelative carries the low 24 bits of its distance at bytes 4..6. */
  lemma RelativeMoveFields(dist: u32, s: u16, a: byte, ccw: bool)
    ensures FromBE(Payload(PosRelative(dist, s, a, ccw))[4..7]) == dist % TWO_24
  {
    assert Payload(PosRelative(dist, s, a, ccw))[4..7] == [Lo8(dist / 0x1_0000), Lo8(dist / 0x100), Lo8(dist)];
    Field24(dist);
  }

  /** posAbsolute carries its full 16-bit speed at bytes 1..2 and the low 24
      bits of its position at bytes 4..6. */
  lemma AbsoluteMoveFields(ax: i32, s: u16, a: byte)
    ensures FromBE(Payload(PosAbsolute(ax, s, a))[1..3]) == s
    ensures FromBE(Payload(PosAbsolute(ax, s, a))[4..7]) == ax % TWO_24
  {
    var p := Payload(PosAbsolute(ax, s, a));
    assert p[1..3] == [Lo8(s / 0x100), Lo8(s)];
    assert p[4..7] == [Lo8(ax / 0x1_0000), Lo8(ax / 0x100), Lo8(ax)];
    Field16(s);
    Field24(ax);
  }

  /** posAxis: the same layout under its own command code. */
  lemma AxisMoveFields(axis: i32, s: u16, a: byte)
    ensures FromBE(Payload(PosAxis(axis, s, a))[1..3]) == s
    ensures FromBE(Payload(PosAxis(axis, s, a))[4..7]) == axis % TWO_24
  {
    var p := Payload(PosAxis(axis, s, a));
    assert p[1..3] == [Lo8(s / 0x100), Lo8(s)];
    assert p[4..7] == [Lo8(axis / 0x1_0000), Lo8(axis / 0x100), Lo8(axis)];
    Field16(s);
    Field24(axis);
  }

  // ---------------------------------------------------------------------
  // Every layout reads back

  /** Commands without parameters, and calibrate with its fixed zero. */
  lemma ParseNullary(c: Command)
    requires c.ReadEncoderCarry? || c.ReadEncoderAdd? || c.ReadSpeed? || c.ReadPulses?
          || c.ReadIOStatus? || c.ReadRawEncoder? || c.ReadAngleError? || c.ReadEnablePin?
          || c.ReadZeroStatus? || c.ReleaseProtection? || c.ReadProtectState? || c.Calibrate?
          || c.GoHome? || c.SetZeroPoint? || c.RestoreDefaults? || c.Restart?
          || c.QueryStatus? || c.EmergencyStop?
    ensures ParseCommand(Payload(c)) == Some(c)
  {
  }

  /** Commands whose one parameter is a byte sent as is. */
  lemma ParseByteParam(c: Command)
    requires c.SetWorkMode? || c.SetMicrostep? || c.SetEnActive? || c.SetDirection?
          || c.SetHoldCurrent? || c.SetCanRate? || c.ReadSystemParam?
    ensures ParseCommand(Payload(c)) == Some(c)
  {
  }

  /** Commands whose parameters are flags. */
  lemma ParseFlagParam(c: Command)
    requires c.SetAutoSleep? || c.SetProtect? || c.SetInterpolator? || c.SetKeylock?
          || c.SetLimitRemap? || c.EnableMotor? || c.SetCanResponse? || c.SpeedState?
    ensures ParseCommand(Payload(c)) == Some(c)
  {
  }

  /** The commands whose one parameter is a 16-bit value. */
  lemma ParseSetCurrent(ma: u16)
    ensures ParseCommand(Payload(SetCurrent(ma))) == Some(SetCurrent(ma))
  {
    Fields16(ma);
  }

  lemma ParseSetCanId(nid: u16)
    ensures ParseCommand(Payload(SetCanId(nid))) == Some(SetCanId(nid))
  {
    Fields16(nid);
  }

  lemma ParseSetGroupId(gid: u16)
    ensures ParseCommand(Payload(SetGroupId(gid))) == Some(SetGroupId(gid))
  {
    Fields16(gid);
  }

  lemma ParseHomeParams(t: byte, d: byte, s: u16, el: bool, m: byte)
    ensures ParseCommand(Payload(SetHomeParams(t, d, s, el, m))) == Some(SetHomeParams(t, d, s, el, m))
  {
    HomeParamsFields(t, d, s, el, m);
  }

  lemma ParseNoLimitReturn(dist: u32, ma: u16)
    ensures ParseCommand(Payload(SetNoLimitReturn(dist, ma))) == Some(SetNoLimitReturn(dist, ma))
  {
    NoLimitReturnFields(dist, ma);
  }

  lemma ParseZeroMode(m: byte, en: bool, sp: byte, dir: byte)
    ensures ParseCommand(Payload(SetZeroMode(m, en, sp, dir))) == Some(SetZeroMode(m, en, sp, dir))
  {
  }

  lemma ParseEnTrigger(et: bool, pp: bool, tim: u16, err: u16)
    ensures ParseCommand(Payload(SetEnTrigger(et, pp, tim, err))) == Some(SetEnTrigger(et, pp, tim, err))
  {
    EnTriggerFields(et, pp, tim, err);
  }

  lemma ParseSpeedMode(s: u16, a: byte, ccw: bool)
    ensures ParseCommand(Payload(SpeedMode(s, a, ccw))) == Some(Canonical(SpeedMode(s, a, ccw)))
  {
    var p := Payload(SpeedMode(s, a, ccw));
    assert p == [0xF6, DirSpeedByte(ccw, s), Lo8(s), a];
    SpeedKeeps12Bits(ccw, s);
  }

  /** What a relative move's payload gives the reader, field by field. */
  lemma RelativeMoveRead(dist: u32, s: u16, a: byte, ccw: bool)
    ensures var p := Payload(PosRelative(dist, s, a, ccw));
      |p| == 7 && p[0] == 0xFD && IsDirSpeed(p[1]) && (p[1] >= 0x80) == ccw && p[3] == a
      && FromBE([p[1] % 0x10, p[2]]) == s % 0x1000 && FromBE(p[4..7]) == dist % TWO_24
  {
    var p := Payload(PosRelative(dist, s, a, ccw));
    assert p[..4] == [0xFD, DirSpeedByte(ccw, s), Lo8(s), a];
    SpeedKeeps12Bits(ccw, s);
    RelativeMoveFields(dist, s, a, ccw);
  }

  lemma ParsePosRelative(dist: u32, s: u16, a: byte, ccw: bool)
    ensures ParseCommand(Payload(PosRelative(dist, s, a, ccw))) == Some(Canonical(PosRelative(dist, s, a, ccw)))
  {
    RelativeMoveRead(dist, s, a, ccw);
  }

  lemma ParsePosAbsolute(ax: i32, s: u16, a: byte)
    ensures ParseCommand(Payload(PosAbsolute(ax, s, a))) == Some(Canonical(PosAbsolute(ax, s, a)))
  {
    AbsoluteMoveFields(ax, s, a);
  }

  lemma ParsePosAxis(axis: i32, s: u16, a: byte)
    ensures ParseCommand(Payload(PosAxis(axis, s, a))) == Some(Canonical(PosAxis(axis, s, a)))
  {
    AxisMoveFields(axis, s, a);
  }

  /** The stops: all zero after the command code, read as the stop and not
      as a move. */
  lemma ParseSpeedModeStop()
    ensures ParseCommand(Payload(SpeedModeStop)) == Some(SpeedModeStop)
  {
    var p := Payload(SpeedModeStop);
    assert p == [0xF6, 0, 0, 0];
    assert [p[1] % 0x10, p[2]] == [0, 0];
    FromBE2(0, 0);
  }

  lemma ParsePosRelativeStop()
    ensures ParseCommand(Payload(PosRelativeStop)) == Some(PosRelativeStop)
  {
    var p := Payload(PosRelativeStop);
    assert p == [0xFD, 0, 0, 0, 0, 0, 0];
    assert [p[1] % 0x10, p[2]] == [0, 0];
    assert p[4..7] == [0, 0, 0];
    FromBE2(0, 0);
    FromBE3(0, 0, 0);
  }

  lemma ParsePosAbsoluteStop()
    ensures ParseCommand(Payload(PosAbsoluteStop)) == Some(PosAbsoluteStop)
  {
    var p := Payload(PosAbsoluteStop);
    assert p == [0xFE, 0, 0, 0, 0, 0, 0];
    assert p[1..3] == [0, 0] && p[4..7] == [0, 0, 0];
    FromBE2(0, 0);
    FromBE3(0, 0, 0);
  }

  lemma ParsePosAxisStop()
    ensures ParseCommand(Payload(PosAxisStop)) == Some(PosAxisStop)
  {
    var p := Payload(PosAxisStop);
    assert p == [0xF4, 0, 0, 0, 0, 0, 0];
    assert p[1..3] == [0, 0] && p[4..7] == [0, 0, 0];
    FromBE2(0, 0);
    FromBE3(0, 0, 0);
  }

  /** The commands with multi-byte fields. */
  lemma ParseFieldCommand(c: Command)
    requires c.SetCurrent? || c.SetCanId? || c.SetGroupId? || c.SetHomeParams?
          || c.SetNoLimitReturn? || c.SetZeroMode? || c.SetEnTrigger?
    ensures ParseCommand(Payload(c)) == Some(c)
  {
    match c
    case SetCurrent(ma) => ParseSetCurrent(ma);
    case SetCanId(nid) => ParseSetCanId(nid);
    case SetGroupId(gid) => ParseSetGroupId(gid);
    case SetHomeParams(t, d, s, el, m) => ParseHomeParams(t, d, s, el, m);
    case SetNoLimitReturn(dist, ma) => ParseNoLimitReturn(dist, ma);
    case SetZeroMode(m, en, sp, dir) => ParseZeroMode(m, en, sp, dir);
    case SetEnTrigger(et, pp, tim, err) => ParseEnTrigger(et, pp, tim, err);
  }

  /** The motion commands and their stops. */
  lemma ParseMotion(c: Command)
    requires c.SpeedMode? || c.SpeedModeStop? || c.PosRelative? || c.PosRelativeStop?
          || c.PosAbsolute? || c.PosAbsoluteStop? || c.PosAxis? || c.PosAxisStop?
    ensures ParseCommand(Payload(c)) == Some(Canonical(c))
  {
    match c
    case SpeedMode(s, a, ccw) => ParseSpeedMode(s, a, ccw);
    case SpeedModeStop => ParseSpeedModeStop();
    case PosRelative(dist, s, a, ccw) => ParsePosRelative(dist, s, a, ccw);
    case PosRelativeStop => ParsePosRelativeStop();
    case PosAbsolute(ax, s, a) => ParsePosAbsolute(ax, s, a);
    case PosAbsoluteStop => ParsePosAbsoluteStop();
    case PosAxis(axis, s, a) => ParsePosAxis(axis, s, a);
    case PosAxisStop => ParsePosAxisStop();
  }

  /** Every payload reads back as the command that built it, up to what the
      layout keeps of it (`Canonical`). */
  lemma ParseOfPayload(c: Command)
    ensures ParseCommand(Payload(c)) == Some(Canonical(c))
  {
    match c
    case ReadEncoderCarry | ReadEncoderAdd | ReadSpeed | ReadPulses | ReadIOStatus
       | ReadRawEncoder | ReadAngleError | ReadEnablePin | ReadZeroStatus
       | ReleaseProtection | ReadProtectState | Calibrate | GoHome | SetZeroPoint
       | RestoreDefaults | Restart | QueryStatus | EmergencyStop =>
      ParseNullary(c);
    case SetWorkMode(_) | SetMicrostep(_) | SetEnActive(_) | SetDirection(_)
       | SetHoldCurrent(_) | SetCanRate(_) | ReadSystemParam(_) =>
      ParseByteParam(c);
    case SetAutoSleep(_) | SetProtect(_) | SetInterpolator(_) | SetKeylock(_)
       | SetLimitRemap(_) | EnableMotor(_) | SetCanResponse(_, _) | SpeedState(_) =>
      ParseFlagParam(c);
    case SetCurrent(_) | SetCanId(_) | SetGroupId(_) | SetHomeParams(_, _, _, _, _)
       | SetNoLimitReturn(_, _) | SetZeroMode(_, _, _, _) | SetEnTrigger(_, _, _, _) =>
      ParseFieldCommand(c);
    case SpeedMode(_, _, _) | SpeedModeStop | PosRelative(_, _, _, _) | PosRelativeStop
       | PosAbsolute(_, _, _) | PosAbsoluteStop | PosAxis(_, _, _) | PosAxisStop =>
      ParseMotion(c);
  }

  // ---------------------------------------------------------------------
  // Exactly what a payload determines

  /** Bytes 1..2 of a speed-mode or relative-move payload depend on the
      speed only through its low 12 bits. */
  lemma SpeedBytesMod(ccw: bool, s: u16, t: u16)
    requires s % 0x1000 == t % 0x1000
    ensures DirSpeedByte(ccw, s) == DirSpeedByte(ccw, t) && Lo8(s) == Lo8(t)
  {
    Low12(s);
    Low12(t);
  }

  /** The speed nibble and low byte of `x` are those of its low 12 bits. */
  lemma Low12(x: nat)
    ensures (x / 0x100) % 0x10 == (x % 0x1000) / 0x100
    ensures x % 0x100 == (x % 0x1000) % 0x100
  {
    var q, r := x / 0x1000, x % 0x1000;
    assert x == q * 0x1000 + r;
    assert x / 0x100 == q * 0x10 + r / 0x100;
    assert x % 0x100 == r % 0x100;
  }

  /** Three shifted bytes of `x` depend on `x` only through its low 24 bits. */
  lemma Bytes24Mod(x: int, y: int)
    requires x % TWO_24 == y % TWO_24
    ensures [Lo8(x / 0x1_0000), Lo8(x / 0x100), Lo8(x)] == [Lo8(y / 0x1_0000), Lo8(y / 0x100), Lo8(y)]
  {
    Split24(x);
    Split24(y);
    Low24(x);
    Low24(y);
    ToBEOfFromBE(ToBE(x, 3));
    ToBEOfFromBE(ToBE(y, 3));
  }

  /** A signed 24-bit reading keeps the low 24 bits. */
  lemma SignedLow24(x: int)
    ensures Signed(x % TWO_24, TWO_24) % TWO_24 == x % TWO_24
  {
  }

  lemma CanonicalSpeedMode(s: u16, a: byte, ccw: bool)
    ensures Payload(Canonical(SpeedMode(s, a, ccw))) == Payload(SpeedMode(s, a, ccw))
  {
    SpeedBytesMod(ccw, s, s % 0x1000);
    if s % 0x1000 == 0 {
      SpeedBytesMod(ccw, s, 0);
    }
  }

  lemma CanonicalPosRelative(dist: u32, s: u16, a: byte, ccw: bool)
    ensures Payload(Canonical(PosRelative(dist, s, a, ccw))) == Payload(PosRelative(dist, s, a, ccw))
  {
    SpeedBytesMod(ccw, s, s % 0x1000);
    Bytes24Mod(dist, dist % TWO_24);
    if s % 0x1000 == 0 && dist % TWO_24 == 0 {
      SpeedBytesMod(ccw, s, 0);
      Bytes24Mod(dist, 0);
    }
  }

  lemma CanonicalPosAbsolute(ax: i32, s: u16, a: byte)
    ensures Payload(Canonical(PosAbsolute(ax, s, a))) == Payload(PosAbsolute(ax, s, a))
  {
    SignedLow24(ax);
    Bytes24Mod(ax, Signed(ax % TWO_24, TWO_24));
    if ax % TWO_24 == 0 {
      Bytes24Mod(ax, 0);
    }
  }

  lemma CanonicalPosAxis(axis: i32, s: u16, a: byte)
    ensures Payload(Canonical(PosAxis(axis, s, a))) == Payload(PosAxis(axis, s, a))
  {
    SignedLow24(axis);
    Bytes24Mod(axis, Signed(axis % TWO_24, TWO_24));
    if axis % TWO_24 == 0 {
      Bytes24Mod(axis, 0);
    }
  }

  /** A command and its canonical form are the same bytes on the wire; in
      particular a move whose fields are all zero is its stop. */
  lemma PayloadOfCanonical(c: Command)
    ensures Payload(Canonical(c)) == Payload(c)
  {
    match c
    case SpeedMode(s, a, ccw) => CanonicalSpeedMode(s, a, ccw);
    case PosRelative(dist, s, a, ccw) => CanonicalPosRelative(dist, s, a, ccw);
    case PosAbsolute(ax, s, a) => CanonicalPosAbsolute(ax, s, a);
    case PosAxis(axis, s, a) => CanonicalPosAxis(axis, s, a);
    case _ => assert Canonical(c) == c;
  }

  /** Two commands put the same bytes on the wire exactly when they agree in
      what the layout keeps: no two commands collide, and nothing a layout
      keeps is lost. */
  lemma PayloadInjective(c1: Command, c2: Command)
    ensures Payload(c1) == Payload(c2) <==> Canonical(c1) == Canonical(c2)
  {
    ParseOfPayload(c1);
    ParseOfPayload(c2);
    PayloadOfCanonical(c1);
    PayloadOfCanonical(c2);
  }

  /** The frame of the protocol description's example: setting motor 1 to
      500 mA sends 83 01 F4 and the checksum 79 in a 4-byte frame. */
  lemma SetCurrentExample()
    ensures Frame(0x01, Payload(SetCurrent(500))) == CanFrame(0x01, 4, [0x83, 0x01, 0xF4, 0x79, 0, 0, 0, 0])
  {
    assert Payload(SetCurrent(500)) == [0x83, 0x01, 0xF4];
    CrcExamples();
  }
}
