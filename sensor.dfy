/**
 * A reference model of the camera's side of the register link, against
 * which the driver's frames are checked: the camera decodes each two-byte
 * frame by bit 7 of its first byte, keeps a file of 128 registers, and
 * answers a read frame by shifting out an unrelated byte while the address
 * arrives and the register's value during the filler byte.
 */
module Sensor {
  import Spi
  import opened ArducamNord

  datatype Option<T> = None | Some(value: T)

  /** A register address as the camera sees it: seven bits. */
  type RegAddr = a: bv8 | a < 0x80

  /** A decoded register access. */
  datatype Access = RegWrite(addr: RegAddr, value: bv8) | RegRead(addr: RegAddr)

  /** How the camera reads a frame: two bytes, bit 7 of the first selecting
      write or read, its low 7 bits the address. A camera does not act on the
      filler byte of a read; this decoder accepts a read only with the 0x00
      filler the driver sends, a modelling choice that makes decoding and
      encoding inverse in both directions. Anything else is not a register
      access. */
  function Decode(frame: seq<bv8>): (r: Option<Access>)
    ensures r.Some? <==> |frame| == 2 && (frame[0] & WRITE_BIT == WRITE_BIT || frame[1] == 0x00)
    ensures r.Some? && r.value.RegWrite? <==> |frame| == 2 && frame[0] & WRITE_BIT == WRITE_BIT
  {
    if |frame| != 2 then None
    else if frame[0] & 0x80 != 0 then Some(RegWrite(frame[0] & 0x7F, frame[1]))
    else if frame[1] == 0x00 then Some(RegRead(frame[0]))
    else None
  }

  /** The frame the driver sends for an access; the camera decodes it back
      to the same access. */
  function Encode(x: Access): (frame: seq<bv8>)
    ensures Decode(frame) == Some(x)
  {
    match x
    case RegWrite(a, v) => WriteFrame(a, v)
    case RegRead(a) => ReadFrame(a)
  }

  /** Decoding and encoding are inverse: a frame the camera accepts is
      exactly the frame the driver sends for the decoded access. */
  lemma EncodeDecode(frame: seq<bv8>)
    requires Decode(frame).Some?
    ensures Encode(Decode(frame).value) == frame
  {
  }

  /** The driver's write frame reaches the register named by the low 7 bits
      of its address argument, with the value unchanged. */
  lemma DecodeWriteFrame(regAddr: bv8, value: bv8)
    ensures Decode(WriteFrame(regAddr, value)) == Some(RegWrite(regAddr & ADDRESS_MASK, value))
  {
  }

  /** The driver's read frame is a read of the register named by the low 7
      bits of its address argument. */
  lemma DecodeReadFrame(regAddr: bv8)
    ensures Decode(ReadFrame(regAddr)) == Some(RegRead(regAddr & ADDRESS_MASK))
  {
  }

  /** The camera's registers. */
  type RegisterFile = RegAddr -> bv8

  /** The registers after the camera receives `frame`: a write frame sets
      one register; any other frame changes nothing. */
  function Execute(regs: RegisterFile, frame: seq<bv8>): RegisterFile
  {
    match Decode(frame)
    case Some(RegWrite(a, v)) => (b: RegAddr) => if b == a then v else regs(b)
    case _ => regs
  }

  /** An ideal link to the camera: every transfer succeeds; a read frame
      with a receive buffer of at least two bytes gets `junk` (the byte
      shifted out while the address arrives) followed by the register's
      value; other transfers receive nothing. */
  function Link(regs: RegisterFile, junk: bv8): Spi.Bus
  {
    (t: Spi.Transfer) =>
      match Decode(t.tx)
      case Some(RegRead(a)) =>
        if t.rxLen >= 2 then Spi.Reply(0, [junk, regs(a)]) else Spi.Reply(0, [])
      case _ => Spi.Reply(0, [])
  }

  /** A register read through the ideal link returns the register's value,
      whatever byte the camera shifts out during the address. */
  lemma ReadRegReturnsRegister(regs: RegisterFile, junk: bv8, regAddr: bv8)
    ensures ReadReg(Link(regs, junk), regAddr) == regs(regAddr & ADDRESS_MASK) as int
  {
    var t := Spi.Transfer([regAddr & ADDRESS_MASK, 0x00], 2);
    assert t.tx == ReadFrame(regAddr);
    DecodeReadFrame(regAddr);
    assert Link(regs, junk)(t).stored == [junk, regs(regAddr & ADDRESS_MASK)];
  }

  /** Writing a register and reading it back returns the value written;
      reading any other register returns its old value. */
  lemma WriteThenRead(regs: RegisterFile, junk: bv8, regAddr: bv8, value: bv8, other: bv8)
    ensures ReadReg(Link(Execute(regs, WriteFrame(regAddr, value)), junk), regAddr) == value as int
    ensures other & ADDRESS_MASK != regAddr & ADDRESS_MASK ==>
              ReadReg(Link(Execute(regs, WriteFrame(regAddr, value)), junk), other)
              == regs(other & ADDRESS_MASK) as int
  {
    var regs' := Execute(regs, WriteFrame(regAddr, value));
    DecodeWriteFrame(regAddr, value);
    assert regs'(regAddr & ADDRESS_MASK) == value;
    ReadRegReturnsRegister(regs', junk, regAddr);
    ReadRegReturnsRegister(regs', junk, other);
  }

  /** A read frame leaves the registers unchanged. */
  lemma ReadFrameChangesNothing(regs: RegisterFile, regAddr: bv8, other: RegAddr)
    ensures Execute(regs, ReadFrame(regAddr))(other) == regs(other)
  {
  }
}
