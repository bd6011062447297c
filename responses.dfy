/** How each command reads the CMD_ACK it waits for.

    The three commands test the status word `arg[0]` in three different ways:
    the raw exchange fails on a zero word (`!resp.arg[0]`), info and reader
    fail on a zero low byte (`resp.arg[0] & 0xFF`), and the upgrade trigger
    uses the logical `resp.arg[0] && 0xFF`, which is the whole-word test
    again. The raw exchange also fails on a zero length, read through the
    32-bit `len` it is copied into. */
module Responses {
  import opened Usb

  /** `uint8_t isok = resp.arg[0] & 0xFF`: the conversion to an unsigned
      8-bit type keeps the one value in range that differs from the word by a
      multiple of 2^8. */
  function LowByte(w: u64): (b: byte)
    ensures (w - b) % Two8 == 0
    ensures w < Two8 ==> b == w
  {
    w % Two8
  }

  /** `uint32_t len = resp.arg[1]`: the conversion to an unsigned 32-bit
      type keeps the one value in range that differs from the word by a
      multiple of 2^32. */
  function Len32(w: u64): (n: u32)
    ensures (w - n) % Two32 == 0
    ensures w < Two32 ==> n == w
  {
    w % Two32
  }

  /** Raw exchange: `!resp.arg[0]` fails. */
  predicate RawStatusOk(w: u64) { w != 0 }

  /** Info and reader: a zero `isok` fails. */
  predicate AtrStatusOk(w: u64) { LowByte(w) != 0 }

  /** Upgrade trigger: `(resp.arg[0] && 0xFF)` reports success. */
  predicate UpgradeStatusOk(w: u64) { w != 0 && 0xFF != 0 }

  /** What the raw exchange makes of its one reply. */
  datatype RawVerdict =
    | RawTimedOut          // no CMD_ACK within 2500 ms
    | RawRejected          // status word zero
    | RawEmpty             // accepted, but `len` is zero
    | RawBytes(len: u32)   // `len` bytes of the payload are shown

  function ClassifyRaw(r: Reply): (v: RawVerdict)
    ensures v.RawBytes? ==> 0 < v.len && r.Ack? && v.len == r.arg1 % Two32
  {
    match r
    case Timeout => RawTimedOut
    case Ack(status, len, _, _) =>
      if !RawStatusOk(status) then RawRejected
      else if Len32(len) == 0 then RawEmpty
      else RawBytes(Len32(len))
  }

  /** What info and reader make of their one reply. */
  datatype AtrVerdict =
    | AtrTimedOut          // no CMD_ACK within 2500 ms
    | AtrRejected          // zero low byte of the status word
    | AtrCard(card: Block) // the block the ATR record is copied from

  function ClassifyAtr(r: Reply): (v: AtrVerdict)
    ensures v.AtrCard? ==> r.Ack? && v.card == r.data
  {
    match r
    case Timeout => AtrTimedOut
    case Ack(status, _, _, data) =>
      if AtrStatusOk(status) then AtrCard(data) else AtrRejected
  }

  /** What the upgrade trigger makes of the reply to the commit packet. */
  datatype CommitVerdict =
    | CommitTimedOut
    | CommitReported(success: bool)

  function ClassifyCommit(r: Reply): (v: CommitVerdict)
    ensures v.CommitTimedOut? <==> r.Timeout?
  {
    match r
    case Timeout => CommitTimedOut
    case Ack(status, _, _, _) => CommitReported(UpgradeStatusOk(status))
  }

  /** The raw exchange rejects exactly the replies whose whole status word is
      zero, whatever their length and payload say. */
  lemma RawRejectsIffZeroWord(r: Reply)
    requires r.Ack?
    ensures ClassifyRaw(r) == RawRejected <==> r.arg0 == 0
    ensures r.arg0 == 0 ==>
      forall len: u64, d: Block :: ClassifyRaw(Ack(r.arg0, len, r.arg2, d)) == RawRejected
  {
  }

  /** Info and reader reject exactly the replies whose status word has a zero
      low byte, whatever the rest of the reply holds. */
  lemma AtrRejectsIffZeroLowByte(r: Reply)
    requires r.Ack?
    ensures ClassifyAtr(r) == AtrRejected <==> r.arg0 % Two8 == 0
    ensures r.arg0 % Two8 == 0 ==>
      forall len: u64, d: Block :: ClassifyAtr(Ack(r.arg0, len, r.arg2, d)) == AtrRejected
  {
  }

  /** The raw exchange shows bytes exactly when the status word and the
      32-bit length are both non-zero; a length that is a non-zero multiple
      of 2^32 reads as empty. */
  lemma RawShowsIffStatusAndLength(r: Reply)
    requires r.Ack?
    ensures ClassifyRaw(r).RawBytes? <==> r.arg0 != 0 && r.arg1 % Two32 != 0
    ensures r.arg0 != 0 && r.arg1 == Two32 ==> ClassifyRaw(r) == RawEmpty
  {
  }

  /** The logical `&&` of the upgrade trigger is the whole-word test of the
      raw exchange, not the low-byte test of info and reader: a status word
      of 0x100 is a success for the upgrade and a failure for info. */
  lemma UpgradeStatusIsWholeWord(w: u64)
    ensures UpgradeStatusOk(w) <==> w != 0
    ensures UpgradeStatusOk(w) <==> RawStatusOk(w)
    ensures AtrStatusOk(w) ==> UpgradeStatusOk(w)
    ensures UpgradeStatusOk(0x100) && !AtrStatusOk(0x100)
  {
    assert LowByte(0x100) == 0;
  }

  /** Every reply the upgrade trigger receives is classified as a report,
      success or failure, and never as a further error. */
  lemma CommitReplyAlwaysReported(r: Reply)
    requires r.Ack?
    ensures ClassifyCommit(r) == CommitReported(r.arg0 != 0)
  {
  }
}
