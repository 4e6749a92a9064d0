# Arducam Mega SPI register framing

A Dafny model of the register-access layer of the Arducam Mega camera
driver (`drivers/video/arducam_nord/arducam_nord.c`). The driver talks to the
camera over SPI with three kinds of transfer:

- a **register write**: the two-byte frame `[address | 0x80, value]`, sent
  with no receive buffer; the driver returns the transport's status;
- a **register read**: the two-byte frame `[address & 0x7F, 0x00]`, with a
  two-byte receive buffer initialised to zero; the driver returns the second
  received byte and ignores both the first byte and the transport's status;
- a **FIFO block read**: one command byte (`SINGLE_FIFO_READ` 0x3D when
  `first` is non-zero, `BURST_FIFO_READ` 0x3C otherwise) sent, with an
  `img_len`-byte receive buffer (the caller's) in the same transceive; the
  driver returns the transport's status.

It also models `arducam_mega_get_info`, which copies the device's
information record into a caller-supplied location, refusing a null one.

Files:

- `spi.dfy` (module `Spi`): the transport boundary. A transfer is the bytes
  to send and the receive-buffer length; a transport (`Bus`) is any function
  from transfers to a status and the bytes it stored. `Overlay` gives the
  receive buffer after a transfer.
- `arducam_nord.dfy` (module `ArducamNord`): the frame builders, the three
  register/FIFO operations and `GetInfo`. Bytes are `bv8`; the driver's
  `uint32_t` lengths and fields are the newtype `u32`.
- `sensor.dfy` (module `Sensor`): a reference model of the camera's side of
  the link, which the source does not contain. It decodes a frame by bit 7
  of its first byte, keeps 128 registers, and on a read shifts out an
  unrelated byte during the address and the register's value during the
  filler. It is the partner against which the frame builders are checked:
  encoding and decoding are inverse, and a read after a write returns the
  value written.

`arducam_mega_read_reg` ignores the transceive status and always returns
`rx[1]`, a value in 0..255, so a bus fault is never reported by a register
read (arducam_nord.c:88-89). `arducam_mega_read_block` returns the transport
status, not a byte count (arducam_nord.c:100).

## Model

| member | source | states |
|---|---|---|
| `Spi.Overlay` | drivers/video/arducam_nord/arducam_nord.c:83-88 | the receive buffer after a transfer has the buffer's length; each byte is the one the transport stored there, or the byte the buffer held before |
| `ArducamNord.WriteFrame` | drivers/video/arducam_nord/arducam_nord.c:74 | the write frame has two bytes; the first has bit 7 set and keeps the low 7 bits of the address (an address with bit 7 already set is unchanged); the second is the value unchanged |
| `ArducamNord.ReadFrame` | drivers/video/arducam_nord/arducam_nord.c:82 | the read frame has two bytes; the first is below 0x80, keeps the low 7 bits of the address (an address below 0x80 is unchanged) and differs from the write command for the same address exactly in bit 7; the second is 0x00 |
| `ArducamNord.FifoReadCommand` | drivers/video/arducam_nord/arducam_nord.c:95 | the command is 0x3D exactly when `first` is non-zero and 0x3C exactly when it is zero; it equals the read command byte of the register-map entries 0x3D/0x3C (lines 45-46) |
| `ArducamNord.WriteFrameImage` | drivers/video/arducam_nord/arducam_nord.c:74 | a frame is produced by the write encoder for some address and value if and only if it has two bytes and bit 7 of its first byte is set |
| `ArducamNord.ReadFrameImage` | drivers/video/arducam_nord/arducam_nord.c:82 | a frame is produced by the read encoder for some address if and only if it has two bytes, its first byte is below 0x80 and its second is 0x00 |
| `ArducamNord.WriteReg` | drivers/video/arducam_nord/arducam_nord.c:72-78 | the result is the transport's status for the transfer of the write frame (address with bit 7 set, then the value) with no receive buffer, unchanged |
| `ArducamNord.ReadReg` | drivers/video/arducam_nord/arducam_nord.c:80-90 | the result is in 0..255; it is the second byte the transport stored for the transfer `[addr & 0x7F, 0x00]` with a 2-byte receive buffer, or 0 (the initialised buffer) if it stored fewer than two bytes |
| `ArducamNord.ReadRegIgnoresStatusAndFirstByte` | drivers/video/arducam_nord/arducam_nord.c:83-89 | two transports that agree on the second stored byte give the same result, whatever status and first byte they report |
| `ArducamNord.ReadBlock` | drivers/video/arducam_nord/arducam_nord.c:93-101 | sends the one-byte FIFO command with an `img_len`-byte receive buffer; returns that transfer's status unchanged; the first `img_len` bytes of the caller's buffer are overwritten by what the transport stored and the rest are untouched |
| `ArducamNord.GetInfo` | drivers/video/arducam_nord/arducam_nord.c:111-119 | a null `info` gives -EINVAL and writes nothing (the frame is empty); otherwise `*info` becomes a copy of the device's record and the result is 0 |
| `Sensor.Decode` | drivers/video/arducam_nord/arducam_nord.c:72-90 | a frame is a register access exactly when it has two bytes and is write-shaped (bit 7 set) or read-shaped (second byte 0x00); it is a write exactly when bit 7 is set |
| `Sensor.Encode` | drivers/video/arducam_nord/arducam_nord.c:72-90 | the driver's frame for any access (write or read of a 7-bit address) decodes back to that access |
| `Sensor.EncodeDecode` | drivers/video/arducam_nord/arducam_nord.c:72-90 | every frame the camera accepts is exactly the driver's frame for the decoded access |
| `Sensor.DecodeWriteFrame` | drivers/video/arducam_nord/arducam_nord.c:74 | the write frame for any 8-bit address is a write of the value to the register named by the address's low 7 bits |
| `Sensor.DecodeReadFrame` | drivers/video/arducam_nord/arducam_nord.c:82 | the read frame for any 8-bit address is a read of the register named by the address's low 7 bits |
| `Sensor.ReadRegReturnsRegister` | drivers/video/arducam_nord/arducam_nord.c:80-90 | over an ideal link a register read returns the register's value, whatever byte the camera shifts out during the address byte |
| `Sensor.WriteThenRead` | drivers/video/arducam_nord/arducam_nord.c:72-90 | after a register write, reading the same register returns the value written, and reading a register with different low 7 bits returns its old value |
| `Sensor.ReadFrameChangesNothing` | drivers/video/arducam_nord/arducam_nord.c:82 | a read frame leaves every camera register unchanged |

## Left out

- The SPI transport (`spi_write_dt`, `spi_transceive_dt`, `spi_is_ready`): foreign calls, modelled only as a function from a transfer to a status and the received bytes. Full-duplex clocking is not modelled; which received byte lines up with which transmitted byte is left to the transport.
- ArducamNord.ReadBlock: `img_buff` is a caller-owned array and the model requires it to hold at least `img_len` bytes, as the C caller must; the transport is called once per operation and is taken to be deterministic, so "the transfer the driver issued" is stated as "the transport's reply to that transfer".
- ArducamNord.GetInfo: requires `data->info` to be non-null when `info` is, because the C dereferences it unchecked; nothing in the source ever sets that field (`arducam_mega_data_0` is a zero-initialised static and `arducam_mega_init` does not assign it), so as the driver stands every call with a non-null `info` dereferences a null pointer, a case the model does not describe. It takes the driver data directly instead of `dev->data`; the device structure is not modelled. `EINVAL` is 22 as in Zephyr's errno; errno.h is not part of this model.
- `arducam_mega_init`, the work queue `ac_work_q` and its stack: operating-system thread setup with no framing logic.
- `__buffer_work`: an empty placeholder with no behaviour.
- The capture, FIFO-length and sensor-control register constants (lines 12-22 and 26-63): declared but used by no code. (`BURST_FIFO_READ` and `SINGLE_FIFO_READ`, lines 23-24, are used by the block read and are modelled.)
- The buffer queues, stream timer, `fifo_first_read` and `fifo_length` fields of the driver data: declared but used by no code; so there is no capture state machine, buffer queue or stream scheduler here.
- The driver API table and device instantiation: registration boilerplate (and it names a `.get_info` member and an `arducam_mega_config_0` object that do not exist).
- The video API and control enums in the headers: type and lookup declarations with no logic.
