# Smart-card socket client commands, modelled in Dafny

This project models the client side of the Proxmark3 RDV40 smart-card
commands in `client/cmdsmartcard.c`: `sc raw`, `sc info`, `sc reader` and
`sc upgrade`. Each command first scans its options. It then exchanges
fixed-shape USB packets with the device: it sends one packet and waits for
one CMD_ACK, and so on. The firmware upgrade cuts the image into
packet-sized chunks. It sends them one at a time, each with its offset, and
needs an acknowledgement for each one. It then sends a commit packet.

Modules:

- `Usb` (`usb.dfy`): the packet shape (a command, three 64-bit arguments
  and a 512-byte payload, USB_CMD_DATA_SIZE). It also models the device channel
  as a sequence of outcomes: the n-th wait gets the n-th outcome, and a wait
  past the end times out.
- `Responses` (`responses.dfy`): how each command classifies the CMD_ACK it
  receives.
- `Scan` (`scan.dfy`): the option loops, each a method with a loop and
  proved equal to a recursive function. The raw and upgrade loops have one
  method each; the identical info and reader loops (lines 234-246 and
  281-293) share one method, `ScanSilentFlags`. A lemma gives the closed
  form of the info/reader scan; others give where the raw scan stops, when
  it turns replies off, and when the upgrade scan proceeds.
- `Upload` (`upload.dfy`): the chunked upload loop, proved against the plan
  of chunk packets, together with the plan's properties.
- `Commands` (`commands.dfy`): each whole command as a method, and a
  function that states its return code, the packets it sends and what it
  shows. Lemmas give the protocol properties.

Behaviours of `client/cmdsmartcard.c` worth knowing:

- The upgrade trigger tests `resp.arg[0] && 0xFF`. This is a logical AND, so
  it succeeds exactly when the whole status word is non-zero; it is not a
  low-byte test. `Responses.UpgradeStatusIsWholeWord`
  states this.
- The raw exchange treats a reported length of zero as a failure (return
  code 1), not as a valid empty result. That length is the 32-bit copy of
  `arg[1]`.
- Info and reader use a low-byte status test. The raw exchange and the
  upgrade test the whole word.
- The upload payload is the chunk first, then 0xFF filler up to the packet
  capacity.
- `sc info` with no options prints its usage and sends nothing (`cmdp == 0`).
  `sc reader` with no options queries the card.
- `sc raw r` without `d` passes validation and sends a raw packet of length
  zero.

## Model

| member | source | states |
|---|---|---|
| Responses.LowByte | client/cmdsmartcard.c:260 | `isok` is the byte that differs from the status word by a multiple of 2^8 (the unsigned conversion of `& 0xFF`), and equals the word when the word is below 256 |
| Responses.Len32 | client/cmdsmartcard.c:112 | `len` is the 32-bit value that differs from `arg[1]` by a multiple of 2^32 (the unsigned conversion), and equals it when it fits |
| Responses.ClassifyRaw | client/cmdsmartcard.c:100-118 | a raw reply is shown only if it is an ACK, and then with a non-zero length equal to `arg[1] mod 2^32` |
| Responses.ClassifyAtr | client/cmdsmartcard.c:255-267 | an accepted info/reader reply is an ACK, and the card record is taken from its payload |
| Responses.ClassifyCommit | client/cmdsmartcard.c:219-226 | the commit reply fails as an error exactly on timeout |
| Responses.RawRejectsIffZeroWord | client/cmdsmartcard.c:107-110 | a raw ACK is rejected iff its whole status word is zero, whatever its length and payload |
| Responses.AtrRejectsIffZeroLowByte | client/cmdsmartcard.c:260-264 | an info/reader ACK is rejected iff the low byte of its status word is zero, whatever else it holds |
| Responses.RawShowsIffStatusAndLength | client/cmdsmartcard.c:107-118 | a raw ACK is shown iff status and 32-bit length are both non-zero; a length of exactly 2^32 reads as empty |
| Responses.UpgradeStatusIsWholeWord | client/cmdsmartcard.c:223-226 | the `&& 0xFF` test is `arg[0] != 0`, the same as the raw test; it accepts 0x100, which info rejects |
| Responses.CommitReplyAlwaysReported | client/cmdsmartcard.c:219-227 | every commit ACK is reported as success (iff `arg[0] != 0`) or failure, never as an error |
| Scan.ScanRawFlags | client/cmdsmartcard.c:55-87 | the raw option loop (`r` +1, `d` +2 with the decoder's codes 1/2/3, unknown flag sets `errors`) ends in the state given by `ScanRaw` |
| Scan.ScanRawStops | client/cmdsmartcard.c:60-87 | the raw scan stops either on NUL, or with `errors` on an unknown flag that it has not stepped over |
| Scan.ScanRawReplyOff | client/cmdsmartcard.c:60-87 | replies end off iff the scan read an `r` flag (not a `d` argument) before it stopped; every such `r`, a leading one included, turns them off |
| Scan.ScanRawOnlyReplyFlags | client/cmdsmartcard.c:63-66 | n `r` flags end at `cmdp == n` with no errors and no hex, replies off iff n > 0 |
| Scan.ScanSilentFlags | client/cmdsmartcard.c:234-246 | the info/reader option loop (every flag but `h` moves `cmdp` by one) ends in the state given by `ScanSilent` |
| Scan.ScanSilentClosedForm | client/cmdsmartcard.c:281-293 | the info/reader scan reads the run of `s` flags, then stops on NUL, returns usage on `h`, or steps over the first other flag with `errors` set |
| Scan.InfoAndReaderProceedIff | client/cmdsmartcard.c:249 | info goes on iff its options are one or more `s` flags; reader (line 296) goes on iff they are zero or more |
| Scan.ScanUpgradeFlags | client/cmdsmartcard.c:130-151 | the upgrade option loop (`f` +2 unless the name reaches FILE_PATH_SIZE) ends in the state given by `ScanUpgrade` |
| Scan.UpgradeProceedsIff | client/cmdsmartcard.c:133-154 | upgrade goes on iff its options are one or more `f <name>` pairs with names that fit, and nothing else |
| Upload.Truncate32 | client/cmdsmartcard.c:189 | `bytes_remaining` is the 32-bit value that differs from the byte count by a multiple of 2^32 (the `size_t` to `uint32_t` conversion), never above it, and equal to it below 2^32 |
| Upload.ChunkLen | client/cmdsmartcard.c:192 | every chunk length is in `1..cap`, stays inside the image, and is short only for the chunk that reaches the end |
| Upload.ChunkPacket | client/cmdsmartcard.c:192-193 | a chunk packet is CMD_SMART_UPLOAD with arg0 = offset, arg1 = the chunk length and arg2 = 0 |
| Upload.ChunkPacketLayout | client/cmdsmartcard.c:195-197 | a chunk packet's payload is `cap` bytes: the image bytes of the chunk in its first `len` bytes and 0xFF in the rest |
| Upload.PlanContiguous | client/cmdsmartcard.c:187-207 | chunk k has offset equal to the sum of the lengths of chunks 0..k-1, and all lengths sum to the image size |
| Upload.UploadPlanChunks | client/cmdsmartcard.c:191-197 | there are ceil(n/cap) chunks (none for an empty image); chunk k is at `k*cap`, `min(cap, n - k*cap)` long, with the image bytes and then 0xFF filler |
| Upload.UploadThousandBytesIn64 | client/cmdsmartcard.c:191-192 | 1000 bytes in 64-byte chunks: 16 chunks, 15 of 64 bytes, the last at offset 960 with 40 bytes |
| Upload.FillChunk | client/cmdsmartcard.c:195-197 | the memset-then-memcpy buffer holds the chunk in its first `len` bytes and 0xFF up to the capacity |
| Upload.NextChunk | client/cmdsmartcard.c:192-197 | one turn of the upload loop builds a packet at offset `bytes_sent` with `min(cap, bytes_remaining)` bytes, and that packet is the next packet of the plan |
| Upload.UploadChunks | client/cmdsmartcard.c:187-209 | the upload loop sends the whole plan iff every chunk is acked; on the first timeout it has sent exactly the plan up to that chunk, with fewer bytes acked than the image |
| Commands.RawPacket | client/cmdsmartcard.c:94-95 | the raw packet has arg1 = hex length, the hex bytes at the head of its payload and zeros after them |
| Commands.CmdSmartRaw | client/cmdsmartcard.c:53-121 | `sc raw` returns, sends, waits and shows what `RawSession` states |
| Commands.RawSendsDecodedHex | client/cmdsmartcard.c:90-97 | at most one packet is sent, exactly when the scan ends without errors and with `cmdp != 0`; it carries the decoded hex; usage means return 0 and nothing sent |
| Commands.RawNoReplyNeverWaits | client/cmdsmartcard.c:63-100 | with an `r` at any position the scan reads as a flag, raw never waits and shows nothing, and returns 0 when it sent |
| Commands.RawReplyVerdict | client/cmdsmartcard.c:100-120 | after a wait: a timeout, a zero status word, or a zero 32-bit length gives 1; success iff status and length are non-zero, and then exactly `len` payload bytes are shown |
| Commands.RawWithoutData | client/cmdsmartcard.c:63-97 | `sc raw r` sends one zero-length raw packet, returns 0 and does not wait |
| Commands.RawFourBytesNoReply | client/cmdsmartcard.c:60-100 | `sc raw r d 11223344` sends one packet with the four bytes and length 4, returns 0 and does not wait |
| Commands.AtrPacket | client/cmdsmartcard.c:251 | the ATR request has command CMD_SMART_ATR, zero arguments and an all-zero payload |
| Commands.AtrRequest | client/cmdsmartcard.c:251-267 | the shared info/reader exchange returns, sends and warns as `AtrExchange` states |
| Commands.CmdSmartInfo | client/cmdsmartcard.c:230-275 | `sc info` behaves as `InfoSession` states |
| Commands.CmdSmartReader | client/cmdsmartcard.c:277-318 | `sc reader` behaves as `ReaderSession` states |
| Commands.AtrVerdictIff | client/cmdsmartcard.c:298-313 | once past its options, reader sends one ATR request and fails iff timeout or zero low byte; on success the card comes from the payload; it warns iff it failed and no `s` was given |
| Commands.InfoAndReaderAgree | client/cmdsmartcard.c:251-267 | whenever info goes on to the device, reader does too and both behave identically, with no warning, as info needs an `s` flag |
| Commands.NoOptionsInfoVersusReader | client/cmdsmartcard.c:249 | with no options, info only prints usage and returns 0, while reader does the full ATR exchange |
| Commands.SilentOnlyMutes | client/cmdsmartcard.c:284-310 | `sc reader s` returns, sends and reads the same as `sc reader`; it never warns, and `sc reader` warns iff it failed |
| Commands.FirstTimeout | client/cmdsmartcard.c:200-204 | the first timeout among the first n waits: all waits before it are ACKs, and the wait at it timed out unless it is n |
| Commands.CommitPacket | client/cmdsmartcard.c:215 | the commit packet is CMD_SMART_UPGRADE with arg0 = bytes read, arg1 = arg2 = 0 and an all-zero payload |
| Commands.CmdSmartUpgrade | client/cmdsmartcard.c:123-228 | `sc upgrade` behaves as `UpgradeSession` states |
| Commands.UpgradeAbortStopsEverything | client/cmdsmartcard.c:200-204 | a timeout at any chunk returns 1 with no report; only upload packets, a prefix of the plan, are sent, no commit; the bytes acked are fewer than the image |
| Commands.UpgradeCommitAfterAllAcked | client/cmdsmartcard.c:187-227 | the commit is sent, last and with arg0 = bytes read, exactly when the options pass, the image loads and every chunk is acked; its timeout returns 1, otherwise 0 with success iff `arg[0] != 0` |
| Commands.UpgradeUploadsImage | client/cmdsmartcard.c:181-215 | the chunks cover `bytes_read mod 2^32` bytes, so the whole image below 4 GiB; an empty image sends the commit packet alone |

## Left out

- Printing: `PrintAndLogEx`, `sprint_hex`, `printf`, the `usage_*` texts, `CmdSmartList`, `CmdSmartcard` and `CmdHelp` (command dispatch and trace listing). The model records only: whether usage is printed (all commands), whether info/reader print the "smart card select failed" warning (lines 256, 262, 303, 309), the upgrade's success/failure report (lines 223-226), and the raw reply bytes shown (line 118). Other messages are not recorded: "Unknown parameter" (lines 83, 147, 241, 288), the hex decoder's errors (lines 70-76), "smart card response failed" (lines 103, 108), the upload and commit timeouts (lines 201, 220) and the file errors.
- The USB transport (`clearCommandBuffer`, `SendCommand`, `WaitForResponseTimeout`). It is a sequence of outcomes, timeout or ACK. Timeout durations (2000 and 2500 ms) are not modelled. Request/response correlation is taken from single-threaded sequencing.
- File loading (`fopen`, `fseek`, `ftell`, `calloc`, `fread`, `fclose`, lines 157-183). It is a given outcome: the bytes read, or a failure that returns 1.
- `param_getchar`, `param_gethex_to_eol` and `param_getstr`. Only their results are modelled: the first character of each parameter, the decoded bytes or error codes 1/2/3, and the file-name length.
- The layout of `smart_card_atr_t` and the `atr_len` field: the header that defines them is not part of this model. Info and reader return the payload block the record is copied from. The ATR bytes are not decoded.
- USB_CMD_DATA_SIZE (512), FILE_PATH_SIZE (1000) and the 64-bit width of the packet arguments come from headers that are not part of this model.
- Scan.ScanRawFlags, Scan.ScanUpgradeFlags: these require fewer than 255 parameters. `cmdp` is a `uint8_t`; with 255 or more, a `d` or `f` at position 254 makes `cmdp += 2` wrap to 0, which can make the C loop run forever. That case is not modelled.
- Scan.ScanSilentFlags: this requires at most 255 parameters. Its `cmdp` steps by one, so with 255 parameters it reaches 255 and stops on NUL; only more than 255 parameters make it wrap, and that case is not modelled.
- `param_gethex_to_eol` reads the hex text up to the end of the line, so in the C program the parameters after a `d` are part of its hex argument. The model lets the decoder's result for each position decide, and the scan still reads the later positions as flags, as the loop at lines 60-87 does.
- Commands.CmdSmartRaw: this requires `RawDeviceFits`: when the command reads the reply, its length must fit (`RawReplyFits`). Line 118 prints `resp.arg[1]` bytes of a 512-byte payload and never checks that length, so a longer length is a precondition on the device, not a handled case.
- Commands.CmdSmartUpgrade: this requires the byte count to fit in 64 bits (`size_t`).
- Upload.UploadChunks: the chunk capacity is a parameter `cap`, and the command passes USB_CMD_DATA_SIZE. A packet's payload is `cap` bytes long.
