/**
 * `CStorjFileTransferOpData`: a Storj transfer. There is no directory to
 * change into; the cache is consulted directly (after a listing when it
 * knows nothing useful), the overwrite check runs, and one `get`/`put`
 * command is sent to the `fzstorj` helper.
 */
module StorjTransfer {
  import opened Common
  import opened Transfer
  import SftpTransfer

  datatype State = Init | CheckFileExists | WaitFileExists | DeleteState | TransferState

  datatype Request = ListRefresh | CreateLocalDir | SendCommand(line: seq<char>)

  /** The cache does not settle the remote file: it is unsure, or its directory is unknown. */
  predicate NeedsListing(l: CacheLookup)
  {
    if l.found then l.entry.unsure else !l.dirDidExist
  }

  /** The helper command: `get <remote> <local>` or `put <local> <remote>`, names already quoted. */
  function CommandLine(download: bool, local: seq<char>, remote: seq<char>): (line: seq<char>)
    ensures |line| == 5 + |local| + |remote|
    ensures download ==> line[..4] == "get " && line[4..4 + |remote|] == remote && line[5 + |remote|..] == local
    ensures !download ==> line[..4] == "put " && line[4..4 + |local|] == local && line[5 + |local|..] == remote
  {
    if download then "get " + remote + " " + local else "put " + local + " " + remote
  }

  /**
   * Storj lists in exactly the cases where SFTP, having changed into the
   * directory, would: the two operations read the cache the same way.
   */
  lemma ListingAgreesWithSftp(l: CacheLookup, download: bool, preserve: bool)
    ensures NeedsListing(l) <==> SftpTransfer.AfterCwd(l, download, preserve) == SftpTransfer.WaitList
  {
  }

  class StorjFileTransfer {
    const download: bool
    const resume: bool
    const localFile: seq<char>
    const localQuoted: seq<char>
    const remoteQuoted: seq<char>
    const remoteSegments: nat       // remotePath_.SegmentCount()

    var opState: State
    var localFileSize: int
    var remoteFileSize: int
    var fileTime: Option<int>
    var transferInitiated: bool
    var requests: seq<Request>

    constructor (download: bool, resume: bool, localFile: seq<char>, localQuoted: seq<char>,
                 remoteQuoted: seq<char>, remoteSegments: nat)
      ensures this.download == download && this.resume == resume && this.localFile == localFile
      ensures this.localQuoted == localQuoted && this.remoteQuoted == remoteQuoted
      ensures this.remoteSegments == remoteSegments
      ensures opState == Init && localFileSize == -1 && remoteFileSize == -1 && fileTime == None
      ensures requests == [] && !transferInitiated
    {
      this.download, this.resume, this.localFile := download, resume, localFile;
      this.localQuoted, this.remoteQuoted, this.remoteSegments := localQuoted, remoteQuoted, remoteSegments;
      opState := Init;
      localFileSize, remoteFileSize := -1, -1;
      fileTime := None;
      transferInitiated := false;
      requests := [];
    }

    /**
     * `Send`: refuse an empty local name and the bucket root; consult the
     * cache (listing when it cannot answer); run the overwrite check; send
     * the transfer command.
     */
    method Send(env: Env) returns (r: Reply)
      modifies this
      ensures old(opState) == Init && localFile == [] ==> r == NoLocalFile(download) && unchanged(this)
      ensures old(opState) == Init && localFile != [] && remoteSegments == 0 ==>
        r == ReplyCritical + ReplyNotSupported && unchanged(this)
      ensures old(opState) == Init && localFile != [] && remoteSegments > 0 ==>
        r == ReplyContinue &&
        localFileSize == (if env.localFileSize.Some? then env.localFileSize.value else old(localFileSize)) &&
        (NeedsListing(env.lookup) ==> opState == Init && requests == old(requests) + [ListRefresh]) &&
        (!NeedsListing(env.lookup) ==> opState == CheckFileExists && requests == old(requests)) &&
        (env.lookup.found && !env.lookup.entry.unsure && env.lookup.matchedCase ==>
          remoteFileSize == env.lookup.entry.size &&
          fileTime == (if env.lookup.entry.time.Some? then env.lookup.entry.time else old(fileTime))) &&
        (!(env.lookup.found && !env.lookup.entry.unsure && env.lookup.matchedCase) ==>
          remoteFileSize == old(remoteFileSize) && fileTime == old(fileTime))
      ensures old(opState) == CheckFileExists ==>
        r == (if env.overwrite != ReplyOk then env.overwrite else ReplyContinue) &&
        opState == (if env.overwrite != ReplyOk then WaitFileExists else TransferState) && requests == old(requests)
      ensures old(opState) == WaitFileExists ==> r == ReplyContinue && opState == TransferState && requests == old(requests)
      ensures old(opState) == TransferState ==>
        r == env.sendResult && transferInitiated && opState == TransferState &&
        requests == old(requests) + (if download && !resume then [CreateLocalDir] else []) +
                    [SendCommand(CommandLine(download, localQuoted, remoteQuoted))]
      ensures old(opState) == DeleteState ==> r == ReplyInternal && unchanged(this)
    {
      match opState {
        case Init =>
          if localFile == [] {
            return NoLocalFile(download);
          }
          if remoteSegments == 0 {
            return ReplyCritical + ReplyNotSupported;
          }
          if env.localFileSize.Some? {
            localFileSize := env.localFileSize.value;
          }
          var l := env.lookup;
          if l.found && !l.entry.unsure && l.matchedCase {
            AdoptEntry(l.entry);
          }
          if NeedsListing(l) {
            requests := requests + [ListRefresh];
            return ReplyContinue;
          }
          opState := CheckFileExists;
          r := ReplyContinue;
        case CheckFileExists =>
          if env.overwrite != ReplyOk {
            opState := WaitFileExists;
            return env.overwrite;
          }
          opState := TransferState;
          r := ReplyContinue;
        case WaitFileExists =>
          opState := TransferState;
          r := ReplyContinue;
        case TransferState =>
          if download && !resume {
            requests := requests + [CreateLocalDir];
          }
          transferInitiated := true;
          requests := requests + [SendCommand(CommandLine(download, localQuoted, remoteQuoted))];
          r := env.sendResult;
        case DeleteState =>
          r := ReplyInternal;
      }
    }

    /** `ParseResponse`: only the transfer command has a reply, which is the operation's result. */
    method ParseResponse(result: Reply) returns (r: Reply)
      ensures r == (if opState == TransferState then result else ReplyInternal)
    {
      if opState == TransferState {
        return result;
      }
      r := ReplyInternal;
    }

    /**
     * `SubcommandResult`: after the listing, adopt what the cache now says
     * of a name that matches in case (even an unsure entry) and go on to
     * the overwrite check whatever the listing's result.
     */
    method SubcommandResult(prev: Reply, env: Env) returns (r: Reply)
      modifies this`opState, this`remoteFileSize, this`fileTime
      ensures old(opState) == Init ==>
        r == ReplyContinue && opState == CheckFileExists &&
        (prev == ReplyOk && env.lookup.found && env.lookup.matchedCase ==>
          remoteFileSize == env.lookup.entry.size &&
          fileTime == (if env.lookup.entry.time.Some? then env.lookup.entry.time else old(fileTime))) &&
        (!(prev == ReplyOk && env.lookup.found && env.lookup.matchedCase) ==>
          remoteFileSize == old(remoteFileSize) && fileTime == old(fileTime))
      ensures old(opState) == DeleteState ==> r == ReplyContinue && opState == TransferState
      ensures old(opState) !in {Init, DeleteState} ==> r == ReplyInternal && unchanged(this)
    {
      if opState == Init {
        if prev == ReplyOk && env.lookup.found && env.lookup.matchedCase {
          AdoptEntry(env.lookup.entry);
        }
        opState := CheckFileExists;
        return ReplyContinue;
      } else if opState == DeleteState {
        opState := TransferState;
        return ReplyContinue;
      }
      r := ReplyInternal;
    }

    method AdoptEntry(e: Direntry)
      modifies this`remoteFileSize, this`fileTime
      ensures remoteFileSize == e.size
      ensures fileTime == (if e.time.Some? then e.time else old(fileTime))
    {
      remoteFileSize := e.size;
      if e.time.Some? {
        fileTime := e.time;
      }
    }
  }
}
