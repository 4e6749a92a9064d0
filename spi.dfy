/**
 * The SPI transport as the driver sees it: it hands over one transfer (the
 * bytes to clock out and the size of the receive buffer) and gets back a
 * status code and the bytes the transport stored into the receive buffer.
 * How bytes move on the wire is not modelled; a transport is any function
 * from transfers to replies.
 */
module Spi {

  /** One transfer: the transmit bytes and the length of the receive buffer.
      A plain write (no receive buffer) has rxLen == 0. */
  datatype Transfer = Transfer(tx: seq<bv8>, rxLen: nat)

  /** The transport's answer: the status it returns (0 or a negative error
      code) and the bytes it stored, from the start of the receive buffer. */
  datatype Reply = Reply(status: int, stored: seq<bv8>)

  /** A transport, fixed for the duration of one driver call. */
  type Bus = Transfer -> Reply

  /** The receive buffer after a transfer: the transport overwrites its first
      bytes with what it stored; every other byte keeps its previous value.
      Bytes stored beyond the end of the buffer are dropped. */
  function Overlay(before: seq<bv8>, stored: seq<bv8>): (after: seq<bv8>)
    ensures |after| == |before|
    ensures forall i :: 0 <= i < |before| ==>
              after[i] == (if i < |stored| then stored[i] else before[i])
  {
    if |stored| >= |before| then stored[..|before|]
    else stored + before[|stored|..]
  }
}
