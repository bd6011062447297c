/** The option scanners at the head of each command.

    Each command walks its parameters with a `uint8_t cmdp`, looking at the
    first character of parameter `cmdp` (`param_getchar`, lower-cased), until
    that character is NUL or an unknown flag has set `errors`. The parameters
    are given here as `flags`, the first character of each parameter in order;
    a position past the end reads as NUL. The hex decoder behind `d` and the
    string copier behind `f` are not part of this model: their results are
    given per parameter position (`hexAt`, `nameLenAt`). */
module Scan {
  import opened Usb

  /** FILE_PATH_SIZE: the capacity of the file-name buffer of `upgrade`. */
  const FilePathSize: nat := 1000

  /** `param_getchar(Cmd, i)`. */
  function ParamChar(flags: seq<char>, i: nat): (c: char)
    ensures c != '\0' ==> i < |flags| && c == flags[i]
  {
    if i < |flags| then flags[i] else '\0'
  }

  /** C `tolower` on the ASCII letters. */
  function ToLower(c: char): (l: char)
    ensures 'A' <= c <= 'Z' ==> l as int == c as int + 32
    ensures !('A' <= c <= 'Z') ==> l == c
  {
    if 'A' <= c <= 'Z' then (c as int + 32) as char else c
  }

  /** The result of `param_gethex_to_eol`: the decoded bytes (it refuses more
      than a packet's worth), or its error codes 1, 2 and 3. */
  datatype HexParse =
    | HexOk(bytes: Payload)
    | HexInvalid      // 1: "Invalid HEX value."
    | HexTooLong      // 2: "Too many bytes."
    | HexOddDigits    // 3: "Hex must have even number of digits."

  // ---------------------------------------------------------------------------
  // sc raw [h] [r] d <hex>
  // ---------------------------------------------------------------------------

  /** Where the raw scanner stops: on `h`, on a failed hex decode (with the
      decoder's code), or at the end of the loop with its variables. */
  datatype RawScan =
    | RawHelp
    | RawHexError(code: nat)
    | RawScanned(cmdp: nat, errors: bool, reply: bool, hex: Payload)

  /** The raw scanner from position `cmdp`, with `reply` and the last decoded
      `hex` so far. */
  function ScanRawFrom(flags: seq<char>, hexAt: nat -> HexParse, cmdp: nat, reply: bool, hex: Payload): RawScan
    decreases |flags| + 1 - cmdp
  {
    var c := ParamChar(flags, cmdp);
    if c == '\0' then RawScanned(cmdp, false, reply, hex)
    else match ToLower(c)
      case 'h' => RawHelp
      case 'r' => ScanRawFrom(flags, hexAt, cmdp + 1, false, hex)
      case 'd' => (
        match hexAt(cmdp + 1)
        case HexInvalid => RawHexError(1)
        case HexTooLong => RawHexError(2)
        case HexOddDigits => RawHexError(3)
        case HexOk(bytes) => ScanRawFrom(flags, hexAt, cmdp + 2, reply, bytes))
      case _ => RawScanned(cmdp, true, reply, hex)
  }

  function ScanRaw(flags: seq<char>, hexAt: nat -> HexParse): RawScan
  {
    ScanRawFrom(flags, hexAt, 0, true, [])
  }

  /** The option loop of `CmdSmartRaw`. */
  method ScanRawFlags(flags: seq<char>, hexAt: nat -> HexParse) returns (s: RawScan)
    requires |flags| < 255  // `cmdp` is a uint8_t
    ensures s == ScanRaw(flags, hexAt)
  {
    var cmdp: u8 := 0;
    var errors, reply := false, true;
    var hex: Payload := [];
    while ParamChar(flags, cmdp) != '\0' && !errors
      invariant cmdp <= |flags| + 1
      invariant !errors ==> ScanRawFrom(flags, hexAt, cmdp, reply, hex) == ScanRaw(flags, hexAt)
      invariant errors ==> RawScanned(cmdp, true, reply, hex) == ScanRaw(flags, hexAt)
      decreases |flags| + 1 - cmdp, !errors
    {
      match ToLower(ParamChar(flags, cmdp)) {
        case 'h' =>
          return RawHelp;
        case 'r' =>
          reply := false;
          cmdp := cmdp + 1;
        case 'd' =>
          match hexAt(cmdp + 1) {
            case HexInvalid => return RawHexError(1);
            case HexTooLong => return RawHexError(2);
            case HexOddDigits => return RawHexError(3);
            case HexOk(bytes) => hex := bytes;
          }
          cmdp := cmdp + 2;
        case _ =>
          errors := true;
      }
    }
    s := RawScanned(cmdp, errors, reply, hex);
  }

  /** The raw scanner ends either on an unknown flag, which it has not
      stepped over, or on the first NUL. */
  lemma {:induction false} ScanRawFromStops(flags: seq<char>, hexAt: nat -> HexParse, cmdp: nat, reply: bool, hex: Payload)
    ensures var s := ScanRawFrom(flags, hexAt, cmdp, reply, hex);
      s.RawScanned? ==>
        (s.errors ==> s.cmdp < |flags| && flags[s.cmdp] != '\0' && ToLower(flags[s.cmdp]) !in {'h', 'r', 'd'}) &&
        (!s.errors ==> ParamChar(flags, s.cmdp) == '\0')
    decreases |flags| + 1 - cmdp
  {
    var c := ParamChar(flags, cmdp);
    if c != '\0' {
      match ToLower(c)
      case 'h' =>
      case 'r' => ScanRawFromStops(flags, hexAt, cmdp + 1, false, hex);
      case 'd' =>
        if hexAt(cmdp + 1).HexOk? {
          ScanRawFromStops(flags, hexAt, cmdp + 2, reply, hexAt(cmdp + 1).bytes);
        }
      case _ =>
    }
  }

  lemma ScanRawStops(flags: seq<char>, hexAt: nat -> HexParse)
    ensures var s := ScanRaw(flags, hexAt);
      s.RawScanned? ==>
        (s.errors ==> s.cmdp < |flags| && flags[s.cmdp] != '\0' && ToLower(flags[s.cmdp]) !in {'h', 'r', 'd'}) &&
        (!s.errors ==> ParamChar(flags, s.cmdp) == '\0')
  {
    ScanRawFromStops(flags, hexAt, 0, true, []);
  }

  /** The raw scan from `cmdp` reads position `i` as a flag: it reaches `i`
      stepping over `r` flags by one and `d <hex>` pairs by two. */
  predicate RawStepsOver(flags: seq<char>, hexAt: nat -> HexParse, cmdp: nat, i: nat)
    decreases |flags| + 1 - cmdp
  {
    var c := ParamChar(flags, cmdp);
    c != '\0' && cmdp <= i &&
    (cmdp == i ||
     match ToLower(c)
     case 'r' => RawStepsOver(flags, hexAt, cmdp + 1, i)
     case 'd' => hexAt(cmdp + 1).HexOk? && RawStepsOver(flags, hexAt, cmdp + 2, i)
     case _ => false)
  }

  /** A scan that turned replies off read an `r` flag before it stopped. */
  lemma {:induction false} ScanRawFromReplyOff(flags: seq<char>, hexAt: nat -> HexParse, cmdp: nat, reply: bool, hex: Payload)
    requires reply
    ensures var s := ScanRawFrom(flags, hexAt, cmdp, reply, hex);
      s.RawScanned? && !s.reply ==>
        exists i: nat :: RawStepsOver(flags, hexAt, cmdp, i) && i < s.cmdp && ToLower(ParamChar(flags, i)) == 'r'
    decreases |flags| + 1 - cmdp
  {
    var c := ParamChar(flags, cmdp);
    if c != '\0' {
      match ToLower(c)
      case 'h' =>
      case 'r' =>
        var s := ScanRawFrom(flags, hexAt, cmdp + 1, false, hex);
        ScanRawFromCmdpGrows(flags, hexAt, cmdp + 1, false, hex);
        assert RawStepsOver(flags, hexAt, cmdp, cmdp);
        assert s.RawScanned? ==> ToLower(ParamChar(flags, cmdp)) == 'r' && cmdp < s.cmdp;
      case 'd' =>
        if hexAt(cmdp + 1).HexOk? {
          var s := ScanRawFrom(flags, hexAt, cmdp + 2, reply, hexAt(cmdp + 1).bytes);
          ScanRawFromReplyOff(flags, hexAt, cmdp + 2, reply, hexAt(cmdp + 1).bytes);
          if s.RawScanned? && !s.reply {
            var j: nat :| RawStepsOver(flags, hexAt, cmdp + 2, j) && j < s.cmdp && ToLower(ParamChar(flags, j)) == 'r';
            assert RawStepsOver(flags, hexAt, cmdp, j);
          }
        }
      case _ =>
    }
  }

  /** The scanner never moves backwards. */
  lemma {:induction false} ScanRawFromCmdpGrows(flags: seq<char>, hexAt: nat -> HexParse, cmdp: nat, reply: bool, hex: Payload)
    ensures var s := ScanRawFrom(flags, hexAt, cmdp, reply, hex);
      s.RawScanned? ==> cmdp <= s.cmdp && (!s.reply ==> !reply || cmdp < s.cmdp)
    decreases |flags| + 1 - cmdp
  {
    var c := ParamChar(flags, cmdp);
    if c != '\0' {
      match ToLower(c)
      case 'h' =>
      case 'r' => ScanRawFromCmdpGrows(flags, hexAt, cmdp + 1, false, hex);
      case 'd' =>
        if hexAt(cmdp + 1).HexOk? {
          ScanRawFromCmdpGrows(flags, hexAt, cmdp + 2, reply, hexAt(cmdp + 1).bytes);
        }
      case _ =>
    }
  }

  /** An `r` the scan reads as a flag turns replies off for good. */
  lemma {:induction false} ScanRawFromStepsOverReply(flags: seq<char>, hexAt: nat -> HexParse, cmdp: nat, reply: bool, hex: Payload, i: nat)
    requires RawStepsOver(flags, hexAt, cmdp, i) && ToLower(ParamChar(flags, i)) == 'r'
    ensures var s := ScanRawFrom(flags, hexAt, cmdp, reply, hex);
      s.RawScanned? ==> !s.reply
    decreases |flags| + 1 - cmdp
  {
    if cmdp == i {
      ScanRawFromKeepsReplyOff(flags, hexAt, cmdp + 1, hex);
    } else {
      match ToLower(ParamChar(flags, cmdp))
      case 'r' => ScanRawFromKeepsReplyOff(flags, hexAt, cmdp + 1, hex);
      case 'd' => ScanRawFromStepsOverReply(flags, hexAt, cmdp + 2, reply, hexAt(cmdp + 1).bytes, i);
      case _ =>
    }
  }

  /** Replies end up off exactly when the scan read an `r` flag before it
      stopped, wherever that flag stands; a parameter starting with `r` that
      is the argument of `d` does not count. A leading `r` always turns them
      off. */
  lemma ScanRawReplyOff(flags: seq<char>, hexAt: nat -> HexParse)
    ensures var s := ScanRaw(flags, hexAt);
      s.RawScanned? ==>
        (!s.reply <==>
          exists i: nat :: RawStepsOver(flags, hexAt, 0, i) && i < s.cmdp && ToLower(ParamChar(flags, i)) == 'r')
    ensures forall i: nat :: RawStepsOver(flags, hexAt, 0, i) && ToLower(ParamChar(flags, i)) == 'r' ==>
      (ScanRaw(flags, hexAt).RawScanned? ==> !ScanRaw(flags, hexAt).reply)
    ensures |flags| > 0 && ToLower(flags[0]) == 'r' && ScanRaw(flags, hexAt).RawScanned? ==>
      !ScanRaw(flags, hexAt).reply
  {
    ScanRawFromReplyOff(flags, hexAt, 0, true, []);
    forall i | RawStepsOver(flags, hexAt, 0, i) && ToLower(ParamChar(flags, i)) == 'r'
      ensures ScanRaw(flags, hexAt).RawScanned? ==> !ScanRaw(flags, hexAt).reply
    {
      ScanRawFromStepsOverReply(flags, hexAt, 0, true, [], i);
    }
    if |flags| > 0 && ToLower(flags[0]) == 'r' {
      assert RawStepsOver(flags, hexAt, 0, 0);
    }
  }

  /** Once `r` has been seen, replies stay off. */
  lemma {:induction false} ScanRawFromKeepsReplyOff(flags: seq<char>, hexAt: nat -> HexParse, cmdp: nat, hex: Payload)
    ensures var s := ScanRawFrom(flags, hexAt, cmdp, false, hex);
      s.RawScanned? ==> !s.reply
    decreases |flags| + 1 - cmdp
  {
    var c := ParamChar(flags, cmdp);
    if c != '\0' {
      match ToLower(c)
      case 'h' =>
      case 'r' => ScanRawFromKeepsReplyOff(flags, hexAt, cmdp + 1, hex);
      case 'd' =>
        if hexAt(cmdp + 1).HexOk? {
          ScanRawFromKeepsReplyOff(flags, hexAt, cmdp + 2, hexAt(cmdp + 1).bytes);
        }
      case _ =>
    }
  }

  /** Parameters that are all `r` are each stepped over by one: the scan ends
      at their count, without errors, with no hex, and with replies off as
      soon as there is one. */
  lemma {:induction false} ScanRawOnlyReplyFlagsFrom(flags: seq<char>, hexAt: nat -> HexParse, cmdp: nat, reply: bool, hex: Payload)
    requires cmdp <= |flags|
    requires forall i :: 0 <= i < |flags| ==> ToLower(flags[i]) == 'r'
    ensures ScanRawFrom(flags, hexAt, cmdp, reply, hex) ==
      RawScanned(|flags|, false, reply && cmdp == |flags|, hex)
    decreases |flags| - cmdp
  {
    if cmdp < |flags| {
      assert ToLower(flags[cmdp]) == 'r' && flags[cmdp] != '\0';
      ScanRawOnlyReplyFlagsFrom(flags, hexAt, cmdp + 1, false, hex);
    }
  }

  lemma ScanRawOnlyReplyFlags(flags: seq<char>, hexAt: nat -> HexParse)
    requires forall i :: 0 <= i < |flags| ==> ToLower(flags[i]) == 'r'
    ensures ScanRaw(flags, hexAt) == RawScanned(|flags|, false, |flags| == 0, [])
  {
    ScanRawOnlyReplyFlagsFrom(flags, hexAt, 0, true, []);
  }

  // ---------------------------------------------------------------------------
  // sc info [h] [s]   and   sc reader [h] [s]
  // ---------------------------------------------------------------------------

  /** The info and reader scanners are the same loop: every flag but `h`,
      known or not, moves `cmdp` on by one. */
  datatype SilentScan =
    | SilentHelp
    | SilentScanned(cmdp: nat, errors: bool, silent: bool)

  function ScanSilentFrom(flags: seq<char>, cmdp: nat, silent: bool): SilentScan
    decreases |flags| + 1 - cmdp
  {
    var c := ParamChar(flags, cmdp);
    if c == '\0' then SilentScanned(cmdp, false, silent)
    else match ToLower(c)
      case 'h' => SilentHelp
      case 's' => ScanSilentFrom(flags, cmdp + 1, true)
      case _ => SilentScanned(cmdp + 1, true, silent)
  }

  function ScanSilent(flags: seq<char>): SilentScan
  {
    ScanSilentFrom(flags, 0, false)
  }

  /** The option loop of `CmdSmartInfo` and `CmdSmartReader`. */
  method ScanSilentFlags(flags: seq<char>) returns (s: SilentScan)
    requires |flags| < 256  // `cmdp` is a uint8_t that steps by one
    ensures s == ScanSilent(flags)
  {
    var cmdp: u8 := 0;
    var errors, silent := false, false;
    while ParamChar(flags, cmdp) != '\0' && !errors
      invariant cmdp <= |flags|
      invariant !errors ==> ScanSilentFrom(flags, cmdp, silent) == ScanSilent(flags)
      invariant errors ==> SilentScanned(cmdp, true, silent) == ScanSilent(flags)
      decreases |flags| - cmdp
    {
      match ToLower(ParamChar(flags, cmdp)) {
        case 'h' =>
          return SilentHelp;
        case 's' =>
          silent := true;
        case _ =>
          errors := true;
      }
      cmdp := cmdp + 1;
    }
    s := SilentScanned(cmdp, errors, silent);
  }

  /** The end of the run of `s` flags that starts at `i`. */
  function SilentRunEnd(flags: seq<char>, i: nat): (k: nat)
    ensures i <= k
    decreases |flags| - i
  {
    if i < |flags| && ToLower(flags[i]) == 's' then SilentRunEnd(flags, i + 1) else i
  }

  /** The silent scanner in closed form: it reads the run of `s` flags, then
      stops on NUL, on `h`, or on the first other flag (stepping over it). */
  lemma {:induction false} ScanSilentFromClosedForm(flags: seq<char>, cmdp: nat, silent: bool)
    ensures var k := SilentRunEnd(flags, cmdp);
      (forall i :: cmdp <= i < k ==> ToLower(ParamChar(flags, i)) == 's') &&
      ScanSilentFrom(flags, cmdp, silent) ==
        if ParamChar(flags, k) == '\0' then SilentScanned(k, false, silent || cmdp < k)
        else if ToLower(flags[k]) == 'h' then SilentHelp
        else SilentScanned(k + 1, true, silent || cmdp < k)
    decreases |flags| - cmdp
  {
    if cmdp < |flags| && ToLower(flags[cmdp]) == 's' {
      ScanSilentFromClosedForm(flags, cmdp + 1, true);
    }
  }

  lemma ScanSilentClosedForm(flags: seq<char>)
    ensures var k := SilentRunEnd(flags, 0);
      (forall i :: 0 <= i < k ==> ToLower(ParamChar(flags, i)) == 's') &&
      ScanSilent(flags) ==
        if ParamChar(flags, k) == '\0' then SilentScanned(k, false, 0 < k)
        else if ToLower(flags[k]) == 'h' then SilentHelp
        else SilentScanned(k + 1, true, 0 < k)
  {
    ScanSilentFromClosedForm(flags, 0, false);
  }

  /** `CmdSmartInfo` goes on to the device only if there was no error and at
      least one flag. */
  predicate InfoProceeds(s: SilentScan)
  {
    s.SilentScanned? && !s.errors && s.cmdp != 0
  }

  /** `CmdSmartReader` goes on to the device whenever there was no error. */
  predicate ReaderProceeds(s: SilentScan)
  {
    s.SilentScanned? && !s.errors
  }

  /** Info reaches the device exactly when its parameters are one or more
      `s` flags and nothing else; reader also does so with no parameters.
      So a plain `sc info` only prints its usage. */
  lemma InfoAndReaderProceedIff(flags: seq<char>)
    ensures ReaderProceeds(ScanSilent(flags)) <==>
      ParamChar(flags, SilentRunEnd(flags, 0)) == '\0'
    ensures InfoProceeds(ScanSilent(flags)) <==>
      ParamChar(flags, SilentRunEnd(flags, 0)) == '\0' && SilentRunEnd(flags, 0) > 0
    ensures ParamChar(flags, 0) == '\0' ==>
      ReaderProceeds(ScanSilent(flags)) && !InfoProceeds(ScanSilent(flags))
    ensures ReaderProceeds(ScanSilent(flags)) ==> ScanSilent(flags).silent == (ScanSilent(flags).cmdp > 0)
  {
    ScanSilentClosedForm(flags);
  }

  // ---------------------------------------------------------------------------
  // sc upgrade [h] f <file>
  // ---------------------------------------------------------------------------

  datatype FileScan =
    | FileHelp
    | FileScanned(cmdp: nat, errors: bool)

  /** The upgrade scanner: `f` takes the next parameter as a file name and
      steps over both, unless the name does not fit FILE_PATH_SIZE. */
  function ScanUpgradeFrom(flags: seq<char>, nameLenAt: nat -> nat, cmdp: nat): FileScan
    decreases |flags| + 1 - cmdp
  {
    var c := ParamChar(flags, cmdp);
    if c == '\0' then FileScanned(cmdp, false)
    else match ToLower(c)
      case 'f' =>
        if nameLenAt(cmdp + 1) >= FilePathSize then FileScanned(cmdp, true)
        else ScanUpgradeFrom(flags, nameLenAt, cmdp + 2)
      case 'h' => FileHelp
      case _ => FileScanned(cmdp, true)
  }

  function ScanUpgrade(flags: seq<char>, nameLenAt: nat -> nat): FileScan
  {
    ScanUpgradeFrom(flags, nameLenAt, 0)
  }

  /** The option loop of `CmdSmartUpgrade`. */
  method ScanUpgradeFlags(flags: seq<char>, nameLenAt: nat -> nat) returns (s: FileScan)
    requires |flags| < 255  // `cmdp` is a uint8_t
    ensures s == ScanUpgrade(flags, nameLenAt)
  {
    var cmdp: u8 := 0;
    var errors := false;
    while ParamChar(flags, cmdp) != '\0' && !errors
      invariant cmdp <= |flags| + 1
      invariant !errors ==> ScanUpgradeFrom(flags, nameLenAt, cmdp) == ScanUpgrade(flags, nameLenAt)
      invariant errors ==> FileScanned(cmdp, true) == ScanUpgrade(flags, nameLenAt)
      decreases |flags| + 1 - cmdp, !errors
    {
      match ToLower(ParamChar(flags, cmdp)) {
        case 'f' =>
          if nameLenAt(cmdp + 1) >= FilePathSize {
            errors := true;
          } else {
            cmdp := cmdp + 2;
          }
        case 'h' =>
          return FileHelp;
        case _ =>
          errors := true;
      }
    }
    s := FileScanned(cmdp, errors);
  }

  /** `CmdSmartUpgrade` goes on to the file only if there was no error and at
      least one flag. */
  predicate UpgradeProceeds(s: FileScan)
  {
    s.FileScanned? && !s.errors && s.cmdp != 0
  }

  /** The parameters the upgrade scanner accepts up to position `end`: an `f`
      and a file name that fits, pair after pair. */
  ghost predicate FilePairsUpTo(flags: seq<char>, nameLenAt: nat -> nat, from: nat, end: nat)
  {
    from <= end && (end - from) % 2 == 0 &&
    forall p :: from <= p < end && (p - from) % 2 == 0 ==>
      ToLower(ParamChar(flags, p)) == 'f' && nameLenAt(p + 1) < FilePathSize
  }

  lemma {:induction false} ScanUpgradeFromIff(flags: seq<char>, nameLenAt: nat -> nat, cmdp: nat, end: nat)
    ensures ScanUpgradeFrom(flags, nameLenAt, cmdp) == FileScanned(end, false) <==>
      FilePairsUpTo(flags, nameLenAt, cmdp, end) && ParamChar(flags, end) == '\0'
    decreases |flags| + 1 - cmdp
  {
    var c := ParamChar(flags, cmdp);
    if c == '\0' {
    } else if ToLower(c) == 'f' && nameLenAt(cmdp + 1) < FilePathSize {
      ScanUpgradeFromIff(flags, nameLenAt, cmdp + 2, end);
      if FilePairsUpTo(flags, nameLenAt, cmdp, end) && ParamChar(flags, end) == '\0' {
        assert cmdp != end;
        assert FilePairsUpTo(flags, nameLenAt, cmdp + 2, end) by {
          forall p | cmdp + 2 <= p < end && (p - (cmdp + 2)) % 2 == 0
            ensures ToLower(ParamChar(flags, p)) == 'f' && nameLenAt(p + 1) < FilePathSize
          {
            assert (p - cmdp) % 2 == 0;
          }
        }
      }
      if FilePairsUpTo(flags, nameLenAt, cmdp + 2, end) {
        assert FilePairsUpTo(flags, nameLenAt, cmdp, end) by {
          forall p | cmdp <= p < end && (p - cmdp) % 2 == 0
            ensures ToLower(ParamChar(flags, p)) == 'f' && nameLenAt(p + 1) < FilePathSize
          {
            if p != cmdp { assert (p - (cmdp + 2)) % 2 == 0; }
          }
        }
      }
    } else {
    }
  }

  /** Upgrade goes on to the file exactly when its parameters are one or more
      pairs `f <name>` whose names fit FILE_PATH_SIZE, and nothing else. */
  lemma UpgradeProceedsIff(flags: seq<char>, nameLenAt: nat -> nat)
    ensures UpgradeProceeds(ScanUpgrade(flags, nameLenAt)) <==>
      exists end :: 0 < end && FilePairsUpTo(flags, nameLenAt, 0, end) && ParamChar(flags, end) == '\0'
  {
    var s := ScanUpgrade(flags, nameLenAt);
    if UpgradeProceeds(s) {
      ScanUpgradeFromIff(flags, nameLenAt, 0, s.cmdp);
    }
    forall end | 0 < end && FilePairsUpTo(flags, nameLenAt, 0, end) && ParamChar(flags, end) == '\0'
      ensures UpgradeProceeds(s)
    {
      ScanUpgradeFromIff(flags, nameLenAt, 0, end);
    }
  }
}
