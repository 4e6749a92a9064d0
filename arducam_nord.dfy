/**
 * Register access framing of the Arducam Mega camera driver over SPI.
 *
 * A register write is the two-byte frame [address with bit 7 set, value];
 * a register read is [address with bit 7 cleared, 0x00], and the register's
 * value is the second byte received (the first is clocked out while the
 * address is still being sent). A FIFO block read sends one command byte,
 * chosen by whether this is the first read of a frame, with a receive
 * buffer of the requested length (the caller's) in the same transceive.
 */
module ArducamNord {
  import Spi

  /** Bit 7 of the first frame byte: set for a write, clear for a read. */
  const WRITE_BIT: bv8 := 0x80
  /** The low 7 bits of the first frame byte: the register address. */
  const ADDRESS_MASK: bv8 := 0x7F

  /** FIFO read command bytes. */
  const BURST_FIFO_READ: bv8 := 0x3C
  const SINGLE_FIFO_READ: bv8 := 0x3D

  /** The register-map names of the same two operations. */
  const CAM_REG_BURST_FIFO_READ_OPERATION: bv8 := 0x3C
  const CAM_REG_SINGLE_FIFO_READ_OPERATION: bv8 := 0x3D

  /** The driver's 32-bit unsigned lengths and capability fields. */
  newtype u32 = x: int | 0 <= x < 0x1_0000_0000

  /** The error number returned (negated) for an invalid argument. */
  const EINVAL: int := 22

  // ---------------------------------------------------------------------
  // Frames
  // ---------------------------------------------------------------------

  /** The frame sent to write `value` into register `regAddr`. */
  function WriteFrame(regAddr: bv8, value: bv8): (f: seq<bv8>)
    ensures |f| == 2
    ensures f[0] & WRITE_BIT == WRITE_BIT
    ensures f[0] & ADDRESS_MASK == regAddr & ADDRESS_MASK
    ensures regAddr & WRITE_BIT == WRITE_BIT ==> f[0] == regAddr
    ensures f[1] == value
  {
    [regAddr | 0x80, value]
  }

  /** The frame sent to read register `regAddr`: its command byte differs
      from the write command for the same address in bit 7 alone. */
  function ReadFrame(regAddr: bv8): (f: seq<bv8>)
    ensures |f| == 2
    ensures f[0] < WRITE_BIT
    ensures f[0] & ADDRESS_MASK == regAddr & ADDRESS_MASK
    ensures regAddr < WRITE_BIT ==> f[0] == regAddr
    ensures f[0] ^ WriteFrame(regAddr, 0)[0] == WRITE_BIT
    ensures f[1] == 0x00
  {
    [regAddr & 0x7F, 0x00]
  }

  /** The one-byte FIFO read command: the single-read command for the first
      read of a frame (`first` non-zero), the burst command otherwise. Both
      are read-direction bytes naming the matching register-map entries. */
  function FifoReadCommand(first: bv8): (cmd: bv8)
    ensures first != 0 <==> cmd == SINGLE_FIFO_READ
    ensures first == 0 <==> cmd == BURST_FIFO_READ
    ensures cmd == ReadFrame(if first != 0 then CAM_REG_SINGLE_FIFO_READ_OPERATION
                             else CAM_REG_BURST_FIFO_READ_OPERATION)[0]
  {
    if first != 0 then SINGLE_FIFO_READ else BURST_FIFO_READ
  }

  /** Every two-byte frame whose first byte has bit 7 set is a write frame,
      and no other frame is. */
  lemma WriteFrameImage(f: seq<bv8>)
    ensures (exists a, v :: WriteFrame(a, v) == f)
            <==> |f| == 2 && f[0] & WRITE_BIT == WRITE_BIT
  {
    if |f| == 2 && f[0] & WRITE_BIT == WRITE_BIT {
      assert WriteFrame(f[0], f[1]) == f;
    }
  }

  /** Every two-byte frame whose first byte is below 0x80 and whose second
      byte is the 0x00 filler is a read frame, and no other frame is. */
  lemma ReadFrameImage(f: seq<bv8>)
    ensures (exists a :: ReadFrame(a) == f)
            <==> |f| == 2 && f[0] < WRITE_BIT && f[1] == 0x00
  {
    if |f| == 2 && f[0] < WRITE_BIT && f[1] == 0x00 {
      assert ReadFrame(f[0]) == f;
    }
  }

  // ---------------------------------------------------------------------
  // Register link
  // ---------------------------------------------------------------------

  /** The transfer of a register write: the write frame, no receive buffer. */
  function WriteRegTransfer(regAddr: bv8, value: bv8): Spi.Transfer
  {
    Spi.Transfer(WriteFrame(regAddr, value), 0)
  }

  /** The transfer of a register read: the read frame, a 2-byte receive buffer. */
  function ReadRegTransfer(regAddr: bv8): Spi.Transfer
  {
    Spi.Transfer(ReadFrame(regAddr), 2)
  }

  /** The transfer of a FIFO block read: the command byte alone, `imgLen`
      bytes to receive. */
  function ReadBlockTransfer(first: bv8, imgLen: u32): Spi.Transfer
  {
    Spi.Transfer([FifoReadCommand(first)], imgLen as int)
  }

  /** Writes `value` into register `regAddr`; the result is the transport's
      status for the write frame, unchanged. */
  function WriteReg(bus: Spi.Bus, regAddr: bv8, value: bv8): (status: int)
    ensures status == bus(Spi.Transfer([regAddr | WRITE_BIT, value], 0)).status
  {
    bus(WriteRegTransfer(regAddr, value)).status
  }

  /** Reads register `regAddr`. The receive buffer starts as two zero bytes;
      the result is its second byte after the transfer. The transport status
      and the first received byte play no part, so the result is always a
      byte value, never an error code. */
  function ReadReg(bus: Spi.Bus, regAddr: bv8): (r: int)
    ensures 0 <= r < 256
    ensures var stored := bus(Spi.Transfer([regAddr & ADDRESS_MASK, 0x00], 2)).stored;
            r == if |stored| >= 2 then stored[1] as int else 0
  {
    var rx := Spi.Overlay([0, 0], bus(ReadRegTransfer(regAddr)).stored);
    rx[1] as int
  }

  /** Two transports that store the same second byte (or both store fewer
      than two bytes) give the same register value, whatever status and
      first byte they report. */
  lemma ReadRegIgnoresStatusAndFirstByte(bus: Spi.Bus, bus': Spi.Bus, regAddr: bv8)
    requires var s, s' := bus(ReadRegTransfer(regAddr)).stored, bus'(ReadRegTransfer(regAddr)).stored;
             (|s| >= 2 <==> |s'| >= 2) && (|s| >= 2 ==> s[1] == s'[1])
    ensures ReadReg(bus, regAddr) == ReadReg(bus', regAddr)
  {
  }

  // ---------------------------------------------------------------------
  // FIFO block read
  // ---------------------------------------------------------------------

  /** Reads `imgLen` bytes from the sensor FIFO into `imgBuff`. The transport
      overwrites the start of the first `imgLen` bytes of the buffer; bytes
      beyond `imgLen` are untouched. The result is the transport's status,
      unchanged. */
  method ReadBlock(bus: Spi.Bus, imgBuff: array<bv8>, imgLen: u32, first: bv8)
    returns (status: int)
    requires imgLen as int <= imgBuff.Length
    modifies imgBuff
    ensures var reply := bus(Spi.Transfer([FifoReadCommand(first)], imgLen as int));
            status == reply.status
            && imgBuff[..imgLen as int] == Spi.Overlay(old(imgBuff[..imgLen as int]), reply.stored)
    ensures imgBuff[imgLen as int..] == old(imgBuff[imgLen as int..])
  {
    var reply := bus(ReadBlockTransfer(first, imgLen));
    forall i | 0 <= i < imgLen as int && i < |reply.stored| {
      imgBuff[i] := reply.stored[i];
    }
    status := reply.status;
  }

  // ---------------------------------------------------------------------
  // Device information
  // ---------------------------------------------------------------------

  /** What the camera reports about its capabilities. */
  datatype Info = Info(
    supportResolution: u32,
    supportSpecialEffects: u32,
    exposureValueMax: u32,
    exposureValueMin: u32,
    gainValueMax: u32,
    gainValueMin: u32,
    enableFocus: bv8,
    enableSharpness: bv8,
    deviceAddress: bv8,
    cameraId: bv8)

  /** A memory location holding an information record. */
  class InfoSlot {
    var value: Info
  }

  /** The driver's per-device data, as far as this model needs it: the
      pointer to the device's information record. */
  class MegaData {
    var info: InfoSlot?
  }

  /** Copies the device's information record into `info`. A null `info` is
      rejected with -EINVAL and nothing is written; otherwise the record is
      copied and the result is 0. */
  method GetInfo(data: MegaData, info: InfoSlot?) returns (rc: int)
    requires info != null ==> data.info != null
    modifies info
    ensures info == null ==> rc == -EINVAL
    ensures info != null ==> rc == 0 && info.value == old(data.info.value)
  {
    if info == null {
      return -EINVAL;
    }
    info.value := data.info.value;
    return 0;
  }
}
