/**
 * `CFtpFileTransferOpData`: the steps an FTP transfer goes through before
 * and after the data connection (change directory, consult the cache,
 * list, SIZE, MDTM, the large-file resume probe, the transfer, MFMT). The
 * control socket's actions are recorded in `requests`; what the
 * collaborators answer comes in as an `Env`.
 */
module FtpTransfer {
  import opened Common
  import opened Text
  import opened Transfer

  datatype State = Init | WaitCwd | WaitList | SizeState | MdtmState | ResumeTest | WaitResumeTest
                 | TransferState | WaitTransfer | MfmtState

  datatype FtpCommand = SizeCmd | MdtmCmd | MfmtCmd(serverTime: Option<int>)

  datatype TransferVerb = Retr | Stor | Appe

  /** What the operation asks of the control socket. */
  datatype Request = ChangeDir | ListRefresh | SendCommand(cmd: FtpCommand)
                   | StartTransfer(verb: TransferVerb, offset: int) | ResumeProbe

  /** The capabilities of the current server this operation reads and records. */
  datatype Caps = Caps(sizeCommand: CapState, mdtmCommand: CapState, mfmtCommand: CapState,
                       restStream: CapState, resume2GBbug: CapState, resume4GBbug: CapState)

  const TwoGiB: int := 0x8000_0000
  const FourGiB: int := 0x1_0000_0000

  /** What the resume-capability test decides. */
  datatype ResumeVerdict = Proceed | SizesMatch | Unsupported | Probe

  /**
   * The test for one size class: files of at least `threshold` bytes whose
   * server is known to have the bug can only end (equal sizes) or fail;
   * with the bug unknown a larger remote file is probed.
   */
  function ResumeTier(local: int, remote: int, threshold: int, bug: CapState): ResumeVerdict
  {
    if local < threshold then Proceed
    else match bug
      case Yes => if remote == local then SizesMatch else Unsupported
      case Unknown => if remote < local then Proceed else if remote == local then SizesMatch else Probe
      case No => Proceed
  }

  /** `TestResumeCapability` for downloads: the 4 GiB class first, then 2 GiB. */
  function ResumeCheck(local: int, remote: int, caps: Caps): ResumeVerdict
  {
    var v := ResumeTier(local, remote, FourGiB, caps.resume4GBbug);
    if v != Proceed then v else ResumeTier(local, remote, TwoGiB, caps.resume2GBbug)
  }

  function VerdictReply(v: ResumeVerdict): Reply
  {
    match v
      case Proceed => ReplyContinue
      case SizesMatch => ReplyOk
      case Unsupported => ReplyCritical
      case Probe => ReplyContinue
  }

  /** Small files never need the test, whatever the server is known to do. */
  lemma ResumeSmallFile(local: int, remote: int, caps: Caps)
    requires local < TwoGiB
    ensures ResumeCheck(local, remote, caps) == Proceed
  {
  }

  /**
   * A probe only happens for a remote file larger than the local one of at
   * least 2 GiB, so the probe offset `remote - 1` is past the local data,
   * and only while the bug of some size class is unknown.
   */
  lemma ResumeProbeOnlyWhenUnknown(local: int, remote: int, caps: Caps)
    requires ResumeCheck(local, remote, caps) == Probe
    ensures local >= TwoGiB && remote > local && remote - 1 >= local
    ensures caps.resume4GBbug == Unknown || caps.resume2GBbug == Unknown
  {
  }

  /** With equal sizes the transfer ends at once or goes ahead; it is never probed or failed. */
  lemma ResumeEqualSizes(local: int, caps: Caps)
    ensures ResumeCheck(local, local, caps) in {Proceed, SizesMatch}
  {
  }

  /** A server known to have the 4 GiB bug fails a larger-than-4-GiB resume of a different size. */
  lemma ResumeKnown4GBBug(local: int, remote: int, caps: Caps)
    requires local >= FourGiB && caps.resume4GBbug == Yes && remote != local
    ensures ResumeCheck(local, remote, caps) == Unsupported
  {
  }

  /**
   * Record the outcome of a resume probe of a local file of `local` bytes:
   * `bug` says the server failed it. The size class is chosen with `>=`,
   * as when the probe was chosen.
   */
  function RecordProbe(caps: Caps, local: int, bug: bool): Caps
  {
    var s := if bug then Yes else No;
    if local >= FourGiB then caps.(resume4GBbug := s) else caps.(resume2GBbug := s)
  }

  /** `SubcommandResult` as written: the size class is chosen with a strict `>`. */
  function RecordProbeAsWritten(caps: Caps, local: int, bug: bool): Caps
  {
    var s := if bug then Yes else No;
    if local > FourGiB then caps.(resume4GBbug := s) else caps.(resume2GBbug := s)
  }

  /**
   * The size class whose unknown flag chose the probe gets the outcome, so
   * that class does not probe the same sizes again.
   */
  lemma RecordProbeSettlesClass(local: int, remote: int, caps: Caps, bug: bool)
    requires ResumeCheck(local, remote, caps) == Probe
    ensures local >= FourGiB && caps.resume4GBbug == Unknown ==>
      RecordProbe(caps, local, bug).resume4GBbug != Unknown &&
      ResumeTier(local, remote, FourGiB, RecordProbe(caps, local, bug).resume4GBbug) != Probe
    ensures local < FourGiB ==>
      RecordProbe(caps, local, bug).resume2GBbug != Unknown &&
      ResumeCheck(local, remote, RecordProbe(caps, local, bug)) != Probe
  {
  }

  /**
   * As written, a file of exactly 4 GiB is probed by the 4 GiB class but
   * the outcome goes to the 2 GiB flag: the 4 GiB flag stays unknown and
   * the same download is probed again.
   */
  lemma RecordProbeAsWrittenMissesFourGiB(caps: Caps, bug: bool)
    requires caps.resume4GBbug == Unknown
    ensures ResumeCheck(FourGiB, FourGiB + 1, caps) == Probe
    ensures RecordProbeAsWritten(caps, FourGiB, bug).resume4GBbug == Unknown
    ensures ResumeCheck(FourGiB, FourGiB + 1, RecordProbeAsWritten(caps, FourGiB, bug)) == Probe
  {
  }

  /** Where the operation goes after changing into the directory, by the cache's answer. */
  function AfterCwd(l: CacheLookup, download: bool, preserve: bool, mdtm: CapState): State
  {
    if !l.found then
      if !l.dirDidExist then WaitList
      else if download && preserve && mdtm == Yes then MdtmState
      else ResumeTest
    else if l.entry.unsure then WaitList
    else if l.matchedCase then
      if download && !l.entry.hasTime && preserve && mdtm == Yes then MdtmState else ResumeTest
    else SizeState
  }

  /** Where the operation goes after the listing, by the cache's new answer. */
  function AfterList(l: CacheLookup, download: bool, preserve: bool, mdtm: CapState): State
  {
    if !l.found then
      if !l.dirDidExist then SizeState
      else if download && preserve && mdtm == Yes then MdtmState
      else ResumeTest
    else if l.matchedCase && !l.entry.unsure then
      if download && !l.entry.hasTime && preserve && mdtm == Yes then MdtmState else ResumeTest
    else SizeState
  }

  /** The cache's entry is trusted for the size and time. */
  predicate Adopts(l: CacheLookup)
  {
    l.found && !l.entry.unsure && l.matchedCase
  }

  /**
   * A listing is requested exactly for an uncached directory or an unsure
   * entry; a trusted entry skips SIZE; a case mismatch asks SIZE.
   */
  lemma CwdListsOnlyWhenNeeded(l: CacheLookup, download: bool, preserve: bool, mdtm: CapState)
    ensures AfterCwd(l, download, preserve, mdtm) == WaitList <==>
      (!l.found && !l.dirDidExist) || (l.found && l.entry.unsure)
    ensures Adopts(l) ==> AfterCwd(l, download, preserve, mdtm) in {MdtmState, ResumeTest}
    ensures l.found && !l.entry.unsure && !l.matchedCase ==> AfterCwd(l, download, preserve, mdtm) == SizeState
  {
  }

  /** After the listing every answer leads to SIZE, MDTM or the resume test: never a second listing. */
  lemma ListNeverRepeats(l: CacheLookup, download: bool, preserve: bool, mdtm: CapState)
    ensures AfterList(l, download, preserve, mdtm) in {SizeState, MdtmState, ResumeTest}
  {
  }

  /** MDTM is only sent for downloads that keep timestamps on a server known to support it. */
  lemma MdtmOnlyWhenUseful(l: CacheLookup, download: bool, preserve: bool, mdtm: CapState)
    ensures AfterCwd(l, download, preserve, mdtm) == MdtmState ==> download && preserve && mdtm == Yes
    ensures AfterList(l, download, preserve, mdtm) == MdtmState ==> download && preserve && mdtm == Yes
  {
  }

  /** The verb of an upload: APPE only when resuming without a working REST STREAM. */
  function UploadVerb(resume: bool, restStream: CapState): (v: TransferVerb)
    ensures v == Appe <==> resume && restStream != Yes
  {
    if resume && restStream != Yes then Appe else Stor
  }

  /**
   * A failed SIZE reply means the file is missing (and MDTM is skipped)
   * when the server is known to support SIZE, or the reply text says
   * "file not found" without the file name itself saying so.
   */
  predicate SizeSaysMissing(sizeCommand: CapState, response: seq<char>, remoteName: seq<char>)
    requires |response| >= 4
  {
    sizeCommand == Yes ||
    ToLowerAscii(response[4..]) == "file not found" ||
    (!Contains(ToLowerAscii(remoteName), "file not found") && Contains(ToLowerAscii(response), "file not found"))
  }

  class FtpFileTransfer {
    const download: bool
    const resume: bool
    const binary: bool
    const localFile: seq<char>
    const remoteName: seq<char>     // the remote path's formatted file name

    var opState: State
    var localFileSize: int
    var remoteFileSize: int
    var resumeOffset: int
    var fileTime: Option<int>
    var tryAbsolutePath: bool
    var fileDidExist: bool
    var caps: Caps
    var requests: seq<Request>
    var localTimeSet: Option<int>   // the modification time given to the local file

    /** A new operation; sizes are unknown (-1) and ASCII mode is the `ascii` flag. */
    constructor (download: bool, resume: bool, ascii: bool, localFile: seq<char>, remoteName: seq<char>, caps: Caps)
      ensures this.download == download && this.resume == resume && binary == !ascii
      ensures this.localFile == localFile && this.remoteName == remoteName && this.caps == caps
      ensures opState == Init && localFileSize == -1 && remoteFileSize == -1 && fileTime == None
      ensures requests == [] && !tryAbsolutePath && localTimeSet == None
    {
      this.download, this.resume, binary := download, resume, !ascii;
      this.localFile, this.remoteName, this.caps := localFile, remoteName, caps;
      opState := Init;
      localFileSize, remoteFileSize, resumeOffset := -1, -1, 0;
      fileTime := None;
      tryAbsolutePath, fileDidExist := false, false;
      requests := [];
      localTimeSet := None;
    }

    /**
     * `Send`: start by changing into the directory, send SIZE, MDTM or
     * MFMT, or set up the transfer; any other state is an error.
     */
    method Send(env: Env) returns (r: Reply)
      modifies this
      ensures old(opState) == Init && localFile == [] ==> r == NoLocalFile(download) && opState == Init
      ensures old(opState) == Init && localFile != [] ==>
        r == ReplyContinue && opState == WaitCwd && requests == old(requests) + [ChangeDir] &&
        localFileSize == (if env.localFileSize.Some? then env.localFileSize.value else old(localFileSize))
      ensures old(opState) == SizeState ==> r == env.sendResult && requests == old(requests) + [SendCommand(SizeCmd)]
      ensures old(opState) == MdtmState ==> r == env.sendResult && requests == old(requests) + [SendCommand(MdtmCmd)]
      ensures old(opState) == MfmtState ==>
        r == env.sendResult &&
        requests == old(requests) + [SendCommand(MfmtCmd(
          if fileTime.Some? then Some(ToServerTime(fileTime.value, env.timezoneOffset)) else None))]
      ensures old(opState) in {WaitCwd, WaitList, WaitResumeTest, WaitTransfer} ==> r == ReplyError && unchanged(this)
      ensures old(opState) in {ResumeTest, TransferState} && download ==> fileDidExist == (env.writerSize != NoSize)
      ensures old(opState) in {ResumeTest, TransferState} &&
              ReachesOpen(download, resume, old(opState) == ResumeTest, old(remoteFileSize), old(localFileSize), binary) ==>
        (opState == WaitTransfer <==> env.openOk) && (env.openOk ==> r == ReplyContinue) && (!env.openOk ==> r == ReplyError)
      ensures caps == old(caps)
    {
      match opState {
        case Init =>
          if localFile == [] {
            return NoLocalFile(download);
          }
          if env.localFileSize.Some? {
            localFileSize := env.localFileSize.value;
          }
          opState := WaitCwd;
          requests := requests + [ChangeDir];
          r := ReplyContinue;
        case SizeState =>
          requests := requests + [SendCommand(SizeCmd)];
          r := env.sendResult;
        case MdtmState =>
          requests := requests + [SendCommand(MdtmCmd)];
          r := env.sendResult;
        case ResumeTest =>
          r := StartTransfer(env);
        case TransferState =>
          r := StartTransfer(env);
        case MfmtState =>
          var t := if fileTime.Some? then Some(ToServerTime(fileTime.value, env.timezoneOffset)) else None;
          requests := requests + [SendCommand(MfmtCmd(t))];
          r := env.sendResult;
        case _ =>
          r := ReplyError;
      }
    }

    /**
     * Whether the resume test and transfer states go straight to opening the
     * file: a download without the resume test, or an upload whose remote
     * file is not already complete.
     */
    static predicate ReachesOpen(download: bool, resume: bool, fromTest: bool, remoteSize: int, localSize: int, binary: bool)
    {
      if download then !(resume && fromTest)
      else !(resume && remoteSize > 0 && remoteSize == localSize && binary)
    }

    /**
     * The resume test and transfer states of `Send`. A download resumes
     * at the size of the existing local file, after the resume test when
     * that is the state; an upload resumes at the remote size, and ends
     * at once (or sets the time with MFMT) when the sizes already match.
     */
    method StartTransfer(env: Env) returns (r: Reply)
      requires opState in {ResumeTest, TransferState}
      modifies this
      ensures download ==> fileDidExist == (env.writerSize != NoSize)
      ensures download && resume && old(opState) == ResumeTest && ResumeCheck(localFileSize, remoteFileSize, caps) != Proceed ==>
        r == VerdictReply(ResumeCheck(localFileSize, remoteFileSize, caps)) &&
        (opState == WaitResumeTest <==> ResumeCheck(localFileSize, remoteFileSize, caps) == Probe)
      ensures opState == WaitResumeTest ==> resumeOffset == remoteFileSize - 1 && requests == old(requests) + [ResumeProbe]
      ensures !download && resume && old(remoteFileSize) > 0 && old(remoteFileSize) == old(localFileSize) && binary ==>
        if env.preserveTimestamps && caps.mfmtCommand == Yes && env.localMtime.Some?
        then r == ReplyContinue && opState == MfmtState && fileTime == env.localMtime
        else r == ReplyOk && requests == old(requests)
      ensures opState == WaitTransfer ==>
        r == ReplyContinue && env.openOk &&
        |requests| == |old(requests)| + 1 && requests[..|old(requests)|] == old(requests) &&
        requests[|old(requests)|].StartTransfer? &&
        requests[|old(requests)|].verb == (if download then Retr else UploadVerb(resume, caps.restStream)) &&
        requests[|old(requests)|].offset == (if download then resumeOffset
          else if resume && remoteFileSize > 0 then remoteFileSize else 0) &&
        (download ==> resumeOffset == (if resume then localFileSize else 0)) &&
        (!download ==> resumeOffset == (if caps.restStream == Yes then requests[|old(requests)|].offset else 0))
      ensures !env.openOk ==> opState != WaitTransfer
      ensures ReachesOpen(download, resume, old(opState) == ResumeTest, old(remoteFileSize), old(localFileSize), binary) ==>
        (opState == WaitTransfer <==> env.openOk) && (!env.openOk ==> r == ReplyError)
      ensures caps == old(caps) && remoteFileSize == old(remoteFileSize)
    {
      var startOffset := 0;
      if download {
        fileDidExist := env.writerSize != NoSize;
        if resume {
          localFileSize := if fileDidExist then env.writerSize else 0;
          if opState == ResumeTest {
            r := TestResumeCapability();
            if r != ReplyContinue || opState != ResumeTest {
              return;
            }
          }
        } else {
          localFileSize := 0;
        }
        resumeOffset := if resume then localFileSize else 0;
        startOffset := resumeOffset;
      } else {
        if resume && remoteFileSize > 0 {
          startOffset := remoteFileSize;
          if startOffset == localFileSize && binary {
            if env.preserveTimestamps && caps.mfmtCommand == Yes && env.localMtime.Some? {
              fileTime := env.localMtime;
              opState := MfmtState;
              return ReplyContinue;
            }
            return ReplyOk;
          }
        }
        resumeOffset := if caps.restStream == Yes then startOffset else 0;
      }
      r := OpenAndSend(env, startOffset);
    }

    /** The end of the transfer state: the file opened, the transfer command is queued from `offset`. */
    method OpenAndSend(env: Env, offset: int) returns (r: Reply)
      modifies this`opState, this`requests
      ensures env.openOk ==>
                r == ReplyContinue && opState == WaitTransfer &&
                requests == old(requests) + [Request.StartTransfer(if download then Retr else UploadVerb(resume, caps.restStream), offset)]
      ensures !env.openOk ==> r == ReplyError && opState == old(opState) && requests == old(requests)
    {
      if !env.openOk {
        return ReplyError;
      }
      var verb := if download then Retr else UploadVerb(resume, caps.restStream);
      opState := WaitTransfer;
      requests := requests + [Request.StartTransfer(verb, offset)];
      r := ReplyContinue;
    }

    /**
     * `TestResumeCapability`: nothing to test for uploads; for downloads
     * the two size classes are checked in turn and the first verdict that
     * is not "proceed" decides; a probe reads from `remote - 1`.
     */
    method TestResumeCapability() returns (r: Reply)
      modifies this`opState, this`resumeOffset, this`requests
      ensures !download ==> r == ReplyContinue && unchanged(this)
      ensures download ==>
        var v := ResumeCheck(localFileSize, remoteFileSize, caps);
        r == VerdictReply(v) &&
        (v == Probe ==> opState == WaitResumeTest && resumeOffset == remoteFileSize - 1 &&
                        requests == old(requests) + [ResumeProbe]) &&
        (v != Probe ==> unchanged(this))
    {
      if !download {
        return ReplyContinue;
      }
      for i := 0 to 2
        invariant unchanged(this)
        invariant i >= 1 ==> ResumeTier(localFileSize, remoteFileSize, FourGiB, caps.resume4GBbug) == Proceed
        invariant i >= 2 ==> ResumeTier(localFileSize, remoteFileSize, TwoGiB, caps.resume2GBbug) == Proceed
      {
        var threshold := if i == 1 then TwoGiB else FourGiB;
        var bug := if i == 1 then caps.resume2GBbug else caps.resume4GBbug;
        var v := ResumeTier(localFileSize, remoteFileSize, threshold, bug);
        if v == Probe {
          opState := WaitResumeTest;
          resumeOffset := remoteFileSize - 1;
          requests := requests + [ResumeProbe];
          return ReplyContinue;
        } else if v != Proceed {
          return VerdictReply(v);
        }
      }
      r := ReplyContinue;
    }

    /**
     * `ParseResponse` for the reply to SIZE, MDTM or MFMT; `code` is the
     * reply's first digit. A good SIZE reply (`213 `) gives the remote size
     * as its leading digits and marks SIZE as supported if that was not
     * known; a failed one that says the file is missing skips MDTM. An MDTM
     * reply's time is moved by the server's offset. Both continue to the
     * overwrite check before the transfer.
     */
    method ParseResponse(code: int, response: seq<char>, env: Env) returns (r: Reply)
      requires |response| >= 4
      modifies this
      ensures old(opState) == SizeState && code != 2 && code != 3 ==>
        remoteFileSize == old(remoteFileSize) && caps == old(caps) &&
        if SizeSaysMissing(old(caps).sizeCommand, response, remoteName)
        then opState == ResumeTest && r == (if env.overwrite != ReplyOk then env.overwrite else ReplyContinue)
        else opState == MdtmState && r == ReplyContinue
      ensures old(opState) == SizeState && (code == 2 || code == 3) ==>
        opState == MdtmState && r == ReplyContinue &&
        if StartsWith(response, "213 ") && |response| > 4
        then remoteFileSize == DigitsValue(DigitPrefix(response[4..])) &&
             caps == old(caps).(sizeCommand := if old(caps).sizeCommand == Unknown then Yes else old(caps).sizeCommand)
        else remoteFileSize == old(remoteFileSize) && caps == old(caps)
      ensures old(opState) == MdtmState ==>
        opState == ResumeTest && r == (if env.overwrite != ReplyOk then env.overwrite else ReplyContinue) &&
        fileTime == (if StartsWith(response, "213 ") && |response| > 16
          then (if env.parsedTime.Some? then Some(FromServerTime(env.parsedTime.value, env.timezoneOffset)) else None)
          else old(fileTime))
      ensures old(opState) == MfmtState ==> r == ReplyOk && unchanged(this)
      ensures old(opState) !in {SizeState, MdtmState, MfmtState} ==> r == ReplyInternal && unchanged(this)
      ensures requests == old(requests)
    {
      match opState {
        case SizeState =>
          if code != 2 && code != 3 {
            if SizeSaysMissing(caps.sizeCommand, response, remoteName) {
              opState := ResumeTest;
              if env.overwrite != ReplyOk {
                return env.overwrite;
              }
            } else {
              opState := MdtmState;
            }
          } else {
            opState := MdtmState;
            if StartsWith(response, "213 ") && |response| > 4 {
              if caps.sizeCommand == Unknown {
                caps := caps.(sizeCommand := Yes);
              }
              remoteFileSize := ParseLeadingNumber(response[4..]);
            }
          }
          r := ReplyContinue;
        case MdtmState =>
          opState := ResumeTest;
          if StartsWith(response, "213 ") && |response| > 16 {
            fileTime := if env.parsedTime.Some? then Some(FromServerTime(env.parsedTime.value, env.timezoneOffset)) else None;
          }
          if env.overwrite != ReplyOk {
            return env.overwrite;
          }
          r := ReplyContinue;
        case MfmtState =>
          r := ReplyOk;
        case _ =>
          r := ReplyInternal;
      }
    }

    /**
     * `SubcommandResult`: the directory change, the listing, the transfer
     * or the resume probe finished with `prev`.
     */
    method SubcommandResult(prev: Reply, env: Env) returns (r: Reply)
      modifies this
      ensures old(opState) == WaitCwd && prev == ReplyOk ==>
        opState == AfterCwd(env.lookup, download, env.preserveTimestamps, caps.mdtmCommand) &&
        (opState == WaitList ==> requests == old(requests) + [ListRefresh] && r == ReplyContinue) &&
        r == (if opState == ResumeTest && env.overwrite != ReplyOk then env.overwrite else ReplyContinue) &&
        (Adopts(env.lookup) ==> remoteFileSize == env.lookup.entry.size &&
                                fileTime == (if env.lookup.entry.time.Some? then env.lookup.entry.time else old(fileTime))) &&
        (!Adopts(env.lookup) ==> remoteFileSize == old(remoteFileSize) && fileTime == old(fileTime))
      ensures old(opState) == WaitCwd && prev != ReplyOk ==>
        tryAbsolutePath && opState == SizeState && r == ReplyContinue
      ensures old(opState) == WaitList && prev == ReplyOk ==>
        opState == AfterList(env.lookup, download, env.preserveTimestamps, caps.mdtmCommand) &&
        requests == old(requests) &&
        r == (if opState == ResumeTest && env.overwrite != ReplyOk then env.overwrite else ReplyContinue) &&
        (Adopts(env.lookup) ==> remoteFileSize == env.lookup.entry.size &&
                                fileTime == (if env.lookup.entry.time.Some? then env.lookup.entry.time else old(fileTime))) &&
        (!Adopts(env.lookup) ==> remoteFileSize == old(remoteFileSize) && fileTime == old(fileTime))
      ensures old(opState) == WaitList && prev != ReplyOk ==> opState == SizeState && r == ReplyContinue
      ensures old(opState) == WaitTransfer ==>
        if prev == ReplyOk && env.preserveTimestamps && !download && caps.mfmtCommand == Yes && env.localMtime.Some?
        then opState == MfmtState && fileTime == env.localMtime && r == ReplyContinue
        else r == prev && opState == WaitTransfer &&
             localTimeSet == (if prev == ReplyOk && env.preserveTimestamps && download && fileTime.Some?
                              then fileTime else old(localTimeSet))
      ensures old(opState) == WaitResumeTest && prev != ReplyOk ==>
        r == (if env.failedResumeTest then prev + ReplyCritical else prev) &&
        caps == (if env.failedResumeTest then RecordProbe(old(caps), localFileSize, true) else old(caps))
      ensures old(opState) == WaitResumeTest && prev == ReplyOk ==>
        r == ReplyContinue && opState == TransferState && caps == RecordProbe(old(caps), localFileSize, false)
      ensures old(opState) != WaitResumeTest ==> caps == old(caps)
    {
      if opState == WaitCwd {
        if prev == ReplyOk {
          var l := env.lookup;
          opState := AfterCwd(l, download, env.preserveTimestamps, caps.mdtmCommand);
          if Adopts(l) {
            AdoptEntry(l.entry);
          }
          if opState == WaitList {
            requests := requests + [ListRefresh];
            return ReplyContinue;
          } else if opState == ResumeTest && env.overwrite != ReplyOk {
            return env.overwrite;
          }
        } else {
          tryAbsolutePath := true;
          opState := SizeState;
        }
      } else if opState == WaitList {
        if prev == ReplyOk {
          var l := env.lookup;
          opState := AfterList(l, download, env.preserveTimestamps, caps.mdtmCommand);
          if Adopts(l) {
            AdoptEntry(l.entry);
          }
          if opState == ResumeTest && env.overwrite != ReplyOk {
            return env.overwrite;
          }
        } else {
          opState := SizeState;
        }
      } else if opState == WaitTransfer {
        if prev == ReplyOk && env.preserveTimestamps {
          if !download && caps.mfmtCommand == Yes {
            if env.localMtime.Some? {
              fileTime := env.localMtime;
              opState := MfmtState;
              return ReplyContinue;
            }
          } else if download && fileTime.Some? {
            localTimeSet := fileTime;
          }
        }
        return prev;
      } else if opState == WaitResumeTest {
        if prev != ReplyOk {
          if env.failedResumeTest {
            caps := RecordProbe(caps, localFileSize, true);
            return prev + ReplyCritical;
          }
          return prev;
        }
        caps := RecordProbe(caps, localFileSize, false);
        opState := TransferState;
      }
      r := ReplyContinue;
    }

    /** Take the size, and the time when it has a date, from a trusted cache entry. */
    method AdoptEntry(e: Direntry)
      modifies this`remoteFileSize, this`fileTime
      ensures remoteFileSize == e.size
      ensures fileTime == (if e.time.Some? then e.time else old(fileTime))
    {
      remoteFileSize := e.size;
      if e.time.Some? {
        fileTime := e.time;
      }
    }
  }
}
