/** The four device commands of the smart-card client: `sc raw`, `sc info`,
    `sc reader` and `sc upgrade`.

    Each command is given its parameters (as in module Scan), the results of
    the collaborators it calls, and the device's answers to its waits in
    order. What a command does is stated as a function (`RawSession`, ...)
    of those inputs: its return code, the packets it sends, and what it shows.
    The command itself is a method built as the source is built, with the
    option loop and the upload loop, and is proved to do what its function
    says. A usage text is printed with return code 0, as `return usage_...()`
    does. */
module Commands {
  import opened Usb
  import opened Responses
  import opened Scan
  import opened Upload

  datatype Option<T> = None | Some(value: T)

  // ---------------------------------------------------------------------------
  // sc raw
  // ---------------------------------------------------------------------------

  /** What `sc raw` did: its return code, the packets it sent, whether it
      waited for a reply, the reply bytes it showed, and whether it printed
      its usage text. */
  datatype RawRun = RawRun(rc: int, sent: seq<Packet>, waited: bool, shown: seq<byte>, usage: bool)

  /** The CMD_SMART_RAW packet: arg1 is the hex length, the payload is the
      hex bytes, zero after them. */
  function RawPacket(hex: Payload): (p: Packet)
    ensures p.cmd == SmartRaw && p.arg0 == 0 && p.arg1 == |hex| && p.arg2 == 0
    ensures |p.data| == UsbCmdDataSize && p.data[..|hex|] == hex
    ensures forall i :: |hex| <= i < UsbCmdDataSize ==> p.data[i] == 0
  {
    ZeroFilled(SmartRaw, 0, |hex|, hex)
  }

  /** `sprint_hex(resp.d.asBytes, len)` reads `len` payload bytes with no
      check against the payload size: the device must not report more. */
  predicate RawReplyFits(r: Reply)
  {
    r.Ack? && r.arg0 != 0 ==> Len32(r.arg1) <= UsbCmdDataSize
  }

  /** The reply must fit only when `sc raw` goes on to send and then reads
      the reply: with `r`, usage or a hex error, line 100 is never reached. */
  predicate RawDeviceFits(flags: seq<char>, hexAt: nat -> HexParse, replies: seq<Reply>)
  {
    var scan := ScanRaw(flags, hexAt);
    scan.RawScanned? && !scan.errors && scan.cmdp != 0 && scan.reply ==> RawReplyFits(ReplyAt(replies, 0))
  }

  function RawSession(flags: seq<char>, hexAt: nat -> HexParse, replies: seq<Reply>): RawRun
    requires RawDeviceFits(flags, hexAt, replies)
  {
    match ScanRaw(flags, hexAt)
    case RawHelp => RawRun(0, [], false, [], true)
    case RawHexError(_) => RawRun(1, [], false, [], false)
    case RawScanned(cmdp, errors, reply, hex) =>
      if errors || cmdp == 0 then RawRun(0, [], false, [], true)
      else if !reply then RawRun(0, [RawPacket(hex)], false, [], false)
      else match ClassifyRaw(ReplyAt(replies, 0))
        case RawBytes(len) => RawRun(0, [RawPacket(hex)], true, ReplyAt(replies, 0).data[..len], false)
        case _ => RawRun(1, [RawPacket(hex)], true, [], false)
  }

  /** `CmdSmartRaw`. */
  method CmdSmartRaw(flags: seq<char>, hexAt: nat -> HexParse, replies: seq<Reply>)
    returns (rc: int, sent: seq<Packet>, waited: bool, shown: seq<byte>, usage: bool)
    requires |flags| < 255
    requires RawDeviceFits(flags, hexAt, replies)
    ensures RawRun(rc, sent, waited, shown, usage) == RawSession(flags, hexAt, replies)
  {
    sent, waited, shown, usage := [], false, [], false;
    var scan := ScanRawFlags(flags, hexAt);
    if scan.RawHelp? {
      return 0, sent, waited, shown, true;
    }
    if scan.RawHexError? {
      return 1, sent, waited, shown, usage;
    }
    if scan.errors || scan.cmdp == 0 {
      return 0, sent, waited, shown, true;
    }
    sent := [RawPacket(scan.hex)];
    if scan.reply {
      waited := true;
      var resp := ReplyAt(replies, 0);
      if resp.Timeout? {
        return 1, sent, waited, shown, usage;
      }
      if !RawStatusOk(resp.arg0) {
        return 1, sent, waited, shown, usage;
      }
      var len := Len32(resp.arg1);
      if len == 0 {
        return 1, sent, waited, shown, usage;
      }
      shown := resp.data[..len];
    }
    rc := 0;
  }

  /** `sc raw` sends at most one packet, and only when its options are
      valid; that packet carries the decoded hex, with its length in arg1. */
  lemma RawSendsDecodedHex(flags: seq<char>, hexAt: nat -> HexParse, replies: seq<Reply>)
    requires RawDeviceFits(flags, hexAt, replies)
    ensures var run := RawSession(flags, hexAt, replies);
      var scan := ScanRaw(flags, hexAt);
      |run.sent| <= 1 &&
      (run.sent != [] <==> scan.RawScanned? && !scan.errors && scan.cmdp != 0) &&
      (run.sent != [] ==>
        run.sent[0].arg1 == |scan.hex| <= UsbCmdDataSize && run.sent[0].data[..|scan.hex|] == scan.hex) &&
      (run.usage ==> run.rc == 0 && run.sent == [])
  {
  }

  /** With an `r` at any position the scan reads as a flag (the first one,
      or one after a decoded `d <hex>` pair), `sc raw` never waits for the
      device and never shows a reply. */
  lemma RawNoReplyNeverWaits(flags: seq<char>, hexAt: nat -> HexParse, replies: seq<Reply>, i: nat)
    requires RawDeviceFits(flags, hexAt, replies)
    requires RawStepsOver(flags, hexAt, 0, i) && ToLower(ParamChar(flags, i)) == 'r'
    ensures !RawSession(flags, hexAt, replies).waited
    ensures RawSession(flags, hexAt, replies).shown == []
    ensures RawSession(flags, hexAt, replies).sent != [] ==> RawSession(flags, hexAt, replies).rc == 0
  {
    ScanRawReplyOff(flags, hexAt);
  }

  /** Once `sc raw` has waited, it fails on a timeout, on a zero status word
      whatever the length and payload say, and on a zero 32-bit length; it
      succeeds exactly when it shows the `len` bytes the device reported. */
  lemma RawReplyVerdict(flags: seq<char>, hexAt: nat -> HexParse, replies: seq<Reply>)
    requires RawDeviceFits(flags, hexAt, replies)
    requires RawSession(flags, hexAt, replies).waited
    ensures var run := RawSession(flags, hexAt, replies);
      var r := ReplyAt(replies, 0);
      (r.Timeout? ==> run.rc == 1) &&
      (r.Ack? && r.arg0 == 0 ==> run.rc == 1 && run.shown == []) &&
      (r.Ack? && r.arg1 % Two32 == 0 ==> run.rc == 1) &&
      (run.rc == 0 <==> r.Ack? && r.arg0 != 0 && r.arg1 % Two32 != 0) &&
      (run.rc == 0 ==> run.shown == r.data[..r.arg1 % Two32] && |run.shown| > 0)
  {
  }

  /** `sc raw r` with no `d`: the options pass (cmdp is 1), so a raw packet
      of length zero is sent, and nothing is awaited. */
  lemma RawWithoutData(hexAt: nat -> HexParse, replies: seq<Reply>)
    ensures RawSession(['r'], hexAt, replies) == RawRun(0, [RawPacket([])], false, [], false)
    ensures RawSession(['r'], hexAt, replies).sent[0].arg1 == 0
  {
    ScanRawOnlyReplyFlags(['r'], hexAt);
  }

  /** `sc raw r d 11223344`: one packet with the four bytes, return code 0,
      no wait. */
  lemma RawFourBytesNoReply(hexAt: nat -> HexParse, replies: seq<Reply>)
    requires hexAt(2) == HexOk([0x11, 0x22, 0x33, 0x44])
    ensures var run := RawSession(['r', 'd', '1'], hexAt, replies);
      run.rc == 0 && !run.waited && |run.sent| == 1 &&
      run.sent[0].cmd == SmartRaw && run.sent[0].arg1 == 4 &&
      run.sent[0].data[..4] == [0x11, 0x22, 0x33, 0x44]
  {
    assert ToLower('r') == 'r' && ToLower('d') == 'd';
    assert ScanRaw(['r', 'd', '1'], hexAt) == RawScanned(3, false, false, [0x11, 0x22, 0x33, 0x44]);
  }

  // ---------------------------------------------------------------------------
  // sc info and sc reader
  // ---------------------------------------------------------------------------

  /** What `sc info` or `sc reader` did: its return code, the packets it
      sent, whether it waited, the block the ATR record was copied from,
      whether it printed the "smart card select failed" warning, and whether
      it printed usage. */
  datatype AtrRun = AtrRun(rc: int, sent: seq<Packet>, waited: bool, card: Option<Block>, warned: bool, usage: bool)

  /** The CMD_SMART_ATR packet: no arguments, no payload. */
  function AtrPacket(): (p: Packet)
    ensures p.cmd == SmartAtr && p.arg0 == 0 && p.arg1 == 0 && p.arg2 == 0
    ensures |p.data| == UsbCmdDataSize && forall i :: 0 <= i < |p.data| ==> p.data[i] == 0
  {
    ZeroFilled(SmartAtr, 0, 0, [])
  }

  /** The exchange info and reader share once their options pass: one ATR
      request, one wait of 2500 ms, and the low-byte status test; failures
      are reported unless `silent`. */
  function AtrExchange(silent: bool, r: Reply): AtrRun
  {
    match ClassifyAtr(r)
    case AtrCard(card) => AtrRun(0, [AtrPacket()], true, Some(card), false, false)
    case _ => AtrRun(1, [AtrPacket()], true, None, !silent, false)
  }

  function InfoSession(flags: seq<char>, replies: seq<Reply>): AtrRun
  {
    var scan := ScanSilent(flags);
    if !scan.SilentScanned? || !InfoProceeds(scan) then AtrRun(0, [], false, None, false, true)
    else AtrExchange(scan.silent, ReplyAt(replies, 0))
  }

  function ReaderSession(flags: seq<char>, replies: seq<Reply>): AtrRun
  {
    var scan := ScanSilent(flags);
    if !scan.SilentScanned? || !ReaderProceeds(scan) then AtrRun(0, [], false, None, false, true)
    else AtrExchange(scan.silent, ReplyAt(replies, 0))
  }

  /** The exchange after the options of info and reader. */
  method AtrRequest(silent: bool, replies: seq<Reply>)
    returns (rc: int, sent: seq<Packet>, waited: bool, card: Option<Block>, warned: bool)
    ensures AtrRun(rc, sent, waited, card, warned, false) == AtrExchange(silent, ReplyAt(replies, 0))
  {
    sent := [AtrPacket()];
    waited := true;
    var resp := ReplyAt(replies, 0);
    if resp.Timeout? {
      return 1, sent, waited, None, !silent;
    }
    var isok := LowByte(resp.arg0);
    if isok == 0 {
      return 1, sent, waited, None, !silent;
    }
    return 0, sent, waited, Some(resp.data), false;
  }

  /** `CmdSmartInfo`. */
  method CmdSmartInfo(flags: seq<char>, replies: seq<Reply>)
    returns (rc: int, sent: seq<Packet>, waited: bool, card: Option<Block>, warned: bool, usage: bool)
    requires |flags| < 256
    ensures AtrRun(rc, sent, waited, card, warned, usage) == InfoSession(flags, replies)
  {
    var scan := ScanSilentFlags(flags);
    if scan.SilentHelp? || scan.errors || scan.cmdp == 0 {
      return 0, [], false, None, false, true;
    }
    rc, sent, waited, card, warned := AtrRequest(scan.silent, replies);
    usage := false;
  }

  /** `CmdSmartReader`. */
  method CmdSmartReader(flags: seq<char>, replies: seq<Reply>)
    returns (rc: int, sent: seq<Packet>, waited: bool, card: Option<Block>, warned: bool, usage: bool)
    requires |flags| < 256
    ensures AtrRun(rc, sent, waited, card, warned, usage) == ReaderSession(flags, replies)
  {
    var scan := ScanSilentFlags(flags);
    if scan.SilentHelp? || scan.errors {
      return 0, [], false, None, false, true;
    }
    rc, sent, waited, card, warned := AtrRequest(scan.silent, replies);
    usage := false;
  }

  /** Info and reader fail exactly on a timeout or on a status word with a
      zero low byte, whatever else the reply holds; on success the ATR
      record is taken from the reply payload. A failure is reported unless
      an `s` option was given. */
  lemma AtrVerdictIff(flags: seq<char>, replies: seq<Reply>)
    requires ReaderProceeds(ScanSilent(flags))
    ensures var run := ReaderSession(flags, replies);
      var r := ReplyAt(replies, 0);
      run.sent == [AtrPacket()] && run.waited &&
      (run.rc == 1 <==> r.Timeout? || r.arg0 % Two8 == 0) &&
      (run.rc == 0 ==> run.card == Some(r.data)) &&
      (run.warned <==> run.rc == 1 && ScanSilent(flags).cmdp == 0)
  {
    InfoAndReaderProceedIff(flags);
  }

  /** Info and reader speak the same protocol: whenever both go on to the
      device, they send, receive and return the same. */
  lemma InfoAndReaderAgree(flags: seq<char>, replies: seq<Reply>)
    requires InfoProceeds(ScanSilent(flags))
    ensures InfoSession(flags, replies) == ReaderSession(flags, replies)
    ensures InfoSession(flags, replies).warned == false
  {
    InfoAndReaderProceedIff(flags);
  }

  /** With no options, `sc info` only prints its usage and returns 0, while
      `sc reader` queries the card. */
  lemma NoOptionsInfoVersusReader(flags: seq<char>, replies: seq<Reply>)
    requires ParamChar(flags, 0) == '\0'
    ensures InfoSession(flags, replies) == AtrRun(0, [], false, None, false, true)
    ensures ReaderSession(flags, replies) == AtrExchange(false, ReplyAt(replies, 0))
  {
    InfoAndReaderProceedIff(flags);
  }

  /** `s` mutes the failure warning of reader and changes nothing else. */
  lemma SilentOnlyMutes(replies: seq<Reply>)
    ensures var loud := ReaderSession([], replies);
      var quiet := ReaderSession(['s'], replies);
      quiet.rc == loud.rc && quiet.sent == loud.sent && quiet.card == loud.card &&
      !quiet.warned && (loud.warned <==> loud.rc == 1)
  {
    assert ToLower('s') == 's';
    assert ScanSilent(['s']) == SilentScanned(1, false, true);
  }

  // ---------------------------------------------------------------------------
  // sc upgrade
  // ---------------------------------------------------------------------------

  /** The file loading that `upgrade` does (fopen, ftell, calloc, fread) and
      that is not part of this model: a failure, or the bytes read. */
  datatype FileLoad = FileMissing | FileSizeError | FileNoMemory | FileLoaded(dump: seq<byte>)

  /** What `sc upgrade` did: its return code, the packets it sent, the
      success or failure it reported after the commit, and whether it
      printed usage. */
  datatype UpgradeRun = UpgradeRun(rc: int, sent: seq<Packet>, reported: Option<bool>, usage: bool)

  /** The position of the first timeout among the first `n` waits, or `n`. */
  function FirstTimeout(replies: seq<Reply>, i: nat, n: nat): (k: nat)
    requires i <= n
    ensures i <= k <= n
    ensures forall j :: i <= j < k ==> ReplyAt(replies, j).Ack?
    ensures k < n ==> ReplyAt(replies, k) == Timeout
    decreases n - i
  {
    if i == n then n
    else if ReplyAt(replies, i).Timeout? then i
    else FirstTimeout(replies, i + 1, n)
  }

  /** The commit packet CMD_SMART_UPGRADE: arg0 is the number of bytes read
      from the file. */
  function CommitPacket(bytesRead: u64): (p: Packet)
    ensures p.cmd == SmartUpgrade && p.arg0 == bytesRead && p.arg1 == 0 && p.arg2 == 0
    ensures |p.data| == UsbCmdDataSize && forall i :: 0 <= i < |p.data| ==> p.data[i] == 0
  {
    ZeroFilled(SmartUpgrade, bytesRead, 0, [])
  }

  /** The `size_t` count of bytes read fits a 64-bit argument. */
  predicate LoadFits(file: FileLoad)
  {
    file.FileLoaded? ==> |file.dump| < Two64
  }

  function UpgradeSession(flags: seq<char>, nameLenAt: nat -> nat, file: FileLoad, replies: seq<Reply>): UpgradeRun
    requires LoadFits(file)
  {
    var scan := ScanUpgrade(flags, nameLenAt);
    if !UpgradeProceeds(scan) then UpgradeRun(0, [], None, true)
    else match file
      case FileLoaded(dump) =>
        var plan := UploadPlan(dump[..Truncate32(|dump|)], UsbCmdDataSize);
        var k := FirstTimeout(replies, 0, |plan|);
        if k < |plan| then UpgradeRun(1, plan[..k + 1], None, false)
        else (
          match ClassifyCommit(ReplyAt(replies, |plan|))
          case CommitTimedOut => UpgradeRun(1, plan + [CommitPacket(|dump|)], None, false)
          case CommitReported(ok) => UpgradeRun(0, plan + [CommitPacket(|dump|)], Some(ok), false))
      case _ => UpgradeRun(1, [], None, false)
  }

  /** `CmdSmartUpgrade`. */
  method CmdSmartUpgrade(flags: seq<char>, nameLenAt: nat -> nat, file: FileLoad, replies: seq<Reply>)
    returns (rc: int, sent: seq<Packet>, reported: Option<bool>, usage: bool)
    requires |flags| < 255
    requires LoadFits(file)
    ensures UpgradeRun(rc, sent, reported, usage) == UpgradeSession(flags, nameLenAt, file, replies)
  {
    var scan := ScanUpgradeFlags(flags, nameLenAt);
    if scan.FileHelp? || scan.errors || scan.cmdp == 0 {
      return 0, [], None, true;
    }
    if !file.FileLoaded? {
      return 1, [], None, false;
    }
    var dump := file.dump;
    var bytesRead: u64 := |dump|;
    var bytesSent, acked;
    sent, bytesSent, acked := UploadChunks(dump, UsbCmdDataSize, replies);
    ghost var plan := UploadPlan(dump[..Truncate32(|dump|)], UsbCmdDataSize);
    if !acked {
      FirstTimeoutUnique(replies, 0, |plan|, |sent| - 1);
      return 1, sent, None, false;
    }
    assert FirstTimeout(replies, 0, |plan|) == |plan| by {
      FirstTimeoutUnique(replies, 0, |plan|, |plan|);
    }
    sent := sent + [CommitPacket(bytesRead)];
    var resp := ReplyAt(replies, |sent| - 1);
    if resp.Timeout? {
      return 1, sent, None, false;
    }
    reported := Some(UpgradeStatusOk(resp.arg0));
    rc, usage := 0, false;
  }

  /** The first timeout is where the acknowledgements stop. */
  lemma {:induction false} FirstTimeoutUnique(replies: seq<Reply>, i: nat, n: nat, k: nat)
    requires i <= k <= n
    requires forall j :: i <= j < k ==> ReplyAt(replies, j).Ack?
    requires k < n ==> ReplyAt(replies, k) == Timeout
    ensures FirstTimeout(replies, i, n) == k
    decreases k - i
  {
    if i < k {
      assert ReplyAt(replies, i).Ack?;
      FirstTimeoutUnique(replies, i + 1, n, k);
    }
  }

  /** On the first chunk that is not acknowledged the upgrade returns 1 at
      once: the chunks sent are the plan up to that one, no commit packet
      follows, and fewer bytes than the image were acknowledged. */
  lemma UpgradeAbortStopsEverything(flags: seq<char>, nameLenAt: nat -> nat, dump: seq<byte>, replies: seq<Reply>, k: nat)
    requires |dump| < Two64
    requires UpgradeProceeds(ScanUpgrade(flags, nameLenAt))
    requires k < |UploadPlan(dump[..Truncate32(|dump|)], UsbCmdDataSize)|
    requires ReplyAt(replies, k) == Timeout
    ensures var run := UpgradeSession(flags, nameLenAt, FileLoaded(dump), replies);
      var plan := UploadPlan(dump[..Truncate32(|dump|)], UsbCmdDataSize);
      run.rc == 1 && run.reported == None &&
      0 < |run.sent| <= k + 1 && run.sent == plan[..|run.sent|] &&
      (forall i :: 0 <= i < |run.sent| ==> run.sent[i].cmd == SmartUpload) &&
      SumLens(run.sent[..|run.sent| - 1]) < Truncate32(|dump|)
  {
    var blob := dump[..Truncate32(|dump|)];
    var plan := UploadPlan(blob, UsbCmdDataSize);
    var f := FirstTimeout(replies, 0, |plan|);
    assert f > k ==> ReplyAt(replies, k).Ack?;
    var run := UpgradeSession(flags, nameLenAt, FileLoaded(dump), replies);
    assert run.sent == plan[..f + 1];
    UploadPlanChunks(blob, UsbCmdDataSize);
    PlanContiguous(blob, UsbCmdDataSize, f);
    assert run.sent[..f] == plan[..f];
  }

  /** The commit packet is sent, last and with arg0 the number of bytes
      read, exactly when the options pass, the image loads and every chunk is
      acknowledged. Its timeout returns 1; otherwise the command returns 0
      and reports success exactly when the whole status word is non-zero. */
  lemma UpgradeCommitAfterAllAcked(flags: seq<char>, nameLenAt: nat -> nat, file: FileLoad, replies: seq<Reply>)
    requires LoadFits(file)
    ensures var run := UpgradeSession(flags, nameLenAt, file, replies);
      run.sent != [] && run.sent[|run.sent| - 1].cmd == SmartUpgrade ==>
        file.FileLoaded? &&
        var plan := UploadPlan(file.dump[..Truncate32(|file.dump|)], UsbCmdDataSize);
        var r := ReplyAt(replies, |plan|);
        run.sent == plan + [CommitPacket(|file.dump|)] &&
        (forall j :: 0 <= j < |plan| ==> ReplyAt(replies, j).Ack?) &&
        (r.Timeout? ==> run.rc == 1 && run.reported == None) &&
        (r.Ack? ==> run.rc == 0 && run.reported == Some(r.arg0 != 0))
    ensures UpgradeProceeds(ScanUpgrade(flags, nameLenAt)) && file.FileLoaded? ==>
      var run := UpgradeSession(flags, nameLenAt, file, replies);
      var plan := UploadPlan(file.dump[..Truncate32(|file.dump|)], UsbCmdDataSize);
      var r := ReplyAt(replies, |plan|);
      (forall j :: 0 <= j < |plan| ==> ReplyAt(replies, j).Ack?) ==>
        run.sent == plan + [CommitPacket(|file.dump|)] &&
        (r.Timeout? ==> run.rc == 1 && run.reported == None) &&
        (r.Ack? ==> run.rc == 0 && run.reported == Some(r.arg0 != 0))
  {
    var run := UpgradeSession(flags, nameLenAt, file, replies);
    if run.sent != [] && run.sent[|run.sent| - 1].cmd == SmartUpgrade {
      var dump := file.dump;
      var plan := UploadPlan(dump[..Truncate32(|dump|)], UsbCmdDataSize);
      var k := FirstTimeout(replies, 0, |plan|);
      UploadPlanChunks(dump[..Truncate32(|dump|)], UsbCmdDataSize);
    }
    if file.FileLoaded? {
      var plan := UploadPlan(file.dump[..Truncate32(|file.dump|)], UsbCmdDataSize);
      if forall j :: 0 <= j < |plan| ==> ReplyAt(replies, j).Ack? {
        FirstTimeoutUnique(replies, 0, |plan|, |plan|);
      }
    }
  }

  /** Every acknowledged upload of an image below 4 GiB carries the whole
      image; a larger one carries only its first `|dump| mod 2^32` bytes,
      though the commit packet still announces `|dump|`. An empty image
      sends the commit packet alone. */
  lemma UpgradeUploadsImage(flags: seq<char>, nameLenAt: nat -> nat, dump: seq<byte>, replies: seq<Reply>)
    requires |dump| < Two64
    requires UpgradeProceeds(ScanUpgrade(flags, nameLenAt))
    ensures var plan := UploadPlan(dump[..Truncate32(|dump|)], UsbCmdDataSize);
      SumLens(plan) == |dump| % Two32 &&
      (|dump| < Two32 ==> SumLens(plan) == |dump|) &&
      (dump == [] ==> UpgradeSession(flags, nameLenAt, FileLoaded(dump), replies).sent == [CommitPacket(0)])
  {
    var blob := dump[..Truncate32(|dump|)];
    PlanCovers(blob, UsbCmdDataSize, 0);
    UploadPlanChunks(blob, UsbCmdDataSize);
  }
}
