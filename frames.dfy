/** CAN frames and their construction (src/MKSServoCAN.cpp, sendFrame).

    A frame is an identifier, a data length code and an 8-byte data field
    of which the first `dlc` bytes are meaningful.  The transport is seen
    only as the list of frames handed to it. */
module Frames {
  import opened Bytes
  import opened Checksum

  /** Data length code of a classic CAN frame. */
  type Length = n: int | 0 <= n <= 8

  /** The 8-byte data field `uint8_t data[8]`. */
  type Buffer = s: seq<byte> | |s| == 8 witness [0, 0, 0, 0, 0, 0, 0, 0]

  datatype CanFrame = CanFrame(id: u32, dlc: Length, data: Buffer)

  /** The bytes a frame carries before its checksum byte. */
  function PayloadOf(f: CanFrame): seq<byte>
    requires f.dlc >= 1
  {
    f.data[..f.dlc - 1]
  }

  /** The check a receiving motor makes: the last meaningful byte is the
      checksum of the identifier and the bytes before it. */
  predicate ChecksumValid(f: CanFrame)
  {
    f.dlc >= 1 && f.data[f.dlc - 1] == Crc(f.id, f.data[..f.dlc - 1])
  }

  /** The frame sendFrame builds for `payload`.  The payload must leave room
      for the checksum in the 8-byte data field; bytes after the checksum are
      zero, as the aggregate initialisation `CanFrame frame{ id, len }`
      leaves them. */
  function Frame(id: u32, payload: seq<byte>): (f: CanFrame)
    requires |payload| <= 7
    ensures f.id == id && f.dlc == |payload| + 1
    ensures ChecksumValid(f) && PayloadOf(f) == payload
    ensures forall k | f.dlc <= k < 8 :: f.data[k] == 0
  {
    var buf := payload + [Crc(id, payload)];
    assert (buf + seq(8 - |buf|, _ => 0))[..|payload|] == payload;
    CanFrame(id, |buf|, buf + seq(8 - |buf|, _ => 0))
  }

  /** sendFrame up to the hand-over to the transport: copy the payload,
      push the checksum, and copy the result into a zeroed data field. */
  method BuildFrame(id: u32, payload: seq<byte>) returns (frame: CanFrame)
    requires |payload| <= 7
    ensures frame == Frame(id, payload)
  {
    var buf := payload;
    var crc := ComputeCrc(id, buf);
    buf := buf + [crc];
    var data := new byte[8](_ => 0);
    for i := 0 to |buf|
      invariant data[..i] == buf[..i]
      invariant forall k | i <= k < 8 :: data[k] == 0
    {
      data[i] := buf[i];
    }
    assert data[..] == buf + seq(8 - |buf|, _ => 0);
    frame := CanFrame(id, |buf|, data[..]);
  }

  /** The transport, observed as the frames handed to its `send`, in order,
      and the frames it still holds for `receive`, oldest first.  A received
      frame's data field is the receive buffer as the transport leaves it: the
      first `dlc` bytes are the frame's, the rest what the buffer held. */
  class Bus {
    var sent: seq<CanFrame>
    var pending: seq<CanFrame>

    constructor (incoming: seq<CanFrame>)
      ensures sent == [] && pending == incoming
    {
      sent := [];
      pending := incoming;
    }

    method Send(frame: CanFrame)
      modifies this
      ensures sent == old(sent) + [frame] && pending == old(pending)
    {
      sent := sent + [frame];
    }

    /** `receive`: the oldest pending frame, or false when none is left. */
    method Receive() returns (ok: bool, frame: CanFrame)
      modifies this
      ensures sent == old(sent)
      ensures ok <==> old(pending) != []
      ensures ok ==> frame == old(pending)[0] && pending == old(pending)[1..]
      ensures !ok ==> pending == old(pending)
    {
      if pending == [] {
        ok, frame := false, CanFrame(0, 0, [0, 0, 0, 0, 0, 0, 0, 0]);
      } else {
        ok, frame := true, pending[0];
        pending := pending[1..];
      }
    }
  }

  /** sendFrame: build the frame and hand it to the transport. */
  method SendFrame(bus: Bus, id: u32, payload: seq<byte>)
    requires |payload| <= 7
    modifies bus
    ensures bus.sent == old(bus.sent) + [Frame(id, payload)]
    ensures bus.pending == old(bus.pending)
  {
    var frame := BuildFrame(id, payload);
    bus.Send(frame);
  }
}
