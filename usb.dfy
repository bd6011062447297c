/** The fixed-shape packets exchanged with the smart-card socket, and the
    device channel seen from the client as a sequence of outcomes.

    A packet is a command word, three numeric arguments and a payload block of
    USB_CMD_DATA_SIZE bytes. The client sends one packet, then (usually) waits
    for one CMD_ACK packet; the single-outstanding-request discipline means the
    n-th wait is answered by the n-th outcome of the device. */
module Usb {

  /** USB_CMD_DATA_SIZE: payload capacity of one packet. */
  const UsbCmdDataSize: nat := 512

  const Two8: int := 0x100
  const Two32: int := 0x1_0000_0000
  const Two64: int := 0x1_0000_0000_0000_0000

  type byte = x: int | 0 <= x < Two8
  type u8 = byte
  type u32 = x: int | 0 <= x < Two32
  type u64 = x: int | 0 <= x < Two64

  /** `n` zero bytes: what an aggregate-initialised C buffer holds. */
  function Zeros(n: nat): (s: seq<byte>)
    ensures |s| == n && forall i :: 0 <= i < n ==> s[i] == 0
  {
    seq(n, _ => 0)
  }

  /** A payload that fits in one packet. */
  type Payload = s: seq<byte> | |s| <= UsbCmdDataSize

  /** The full payload area of a packet. */
  type Block = s: seq<byte> | |s| == UsbCmdDataSize witness Zeros(UsbCmdDataSize)

  /** The command words this client sends. */
  datatype Cmd = SmartRaw | SmartUpload | SmartUpgrade | SmartAtr

  /** A command packet as it leaves the client. */
  datatype Packet = Packet(cmd: Cmd, arg0: u64, arg1: u64, arg2: u64, data: seq<byte>)

  /** What a wait for CMD_ACK yields: no answer in time, or the answer. */
  datatype Reply =
    | Timeout
    | Ack(arg0: u64, arg1: u64, arg2: u64, data: Block)

  /** The outcome of the `i`-th wait; a device that has nothing more to say
      lets every further wait time out. */
  function ReplyAt(replies: seq<Reply>, i: nat): (r: Reply)
    ensures i >= |replies| ==> r == Timeout
    ensures i < |replies| ==> r == replies[i]
  {
    if i < |replies| then replies[i] else Timeout
  }

  /** A packet whose payload starts with `bytes` and is zero after them, as
      built from a zero-initialised UsbCommand and a memcpy of `bytes`. */
  function ZeroFilled(cmd: Cmd, arg0: u64, arg1: u64, bytes: Payload): (p: Packet)
    ensures |p.data| == UsbCmdDataSize && p.data[..|bytes|] == bytes
    ensures forall i :: |bytes| <= i < UsbCmdDataSize ==> p.data[i] == 0
  {
    Packet(cmd, arg0, arg1, 0, bytes + Zeros(UsbCmdDataSize - |bytes|))
  }
}
