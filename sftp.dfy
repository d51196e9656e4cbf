/**
 * `CSftpFileTransferOpData`: an SFTP transfer driven through the `fzsftp`
 * helper process. The steps before the transfer mirror FTP's (change
 * directory, cache, listing, `mtime`); the transfer itself is one command
 * line, after which the helper asks for buffers over a sideband and the
 * operation answers with short `-`-prefixed lines. The text sent to the
 * helper is `stream`; the reader's and writer's answers come in as
 * arguments.
 */
module SftpTransfer {
  import opened Common
  import opened Text
  import opened Aio
  import opened Transfer

  datatype State = Init | WaitCwd | WaitList | MtimeState | TransferState | ChmtimeState

  /** What the operation asks of the control socket apart from stream text. */
  datatype Request = ChangeDir | ListRefresh | CreateLocalDir | MtimeCmd | ChmtimeCmd(serverSeconds: Option<int>)
                   | ResetOperation(reply: Reply)

  /**
   * The transfer command: `re` when resuming, then `get <remote> <local>`
   * or `put <local> <remote>`, then CR LF. The names are already quoted.
   */
  function TransferLine(resume: bool, download: bool, local: seq<char>, remote: seq<char>): (line: seq<char>)
    ensures download ==> line == (if resume then "reget " else "get ") + remote + " " + local + "\r\n"
    ensures !download ==> line == (if resume then "reput " else "put ") + local + " " + remote + "\r\n"
  {
    var verb := (if resume then "re" else "") + (if download then "get " else "put ");
    verb + (if download then remote + " " + local else local + " " + remote) + "\r\n"
  }

  /** The command starts with `re` exactly when resuming, then the verb, and ends with CR LF. */
  lemma TransferLineShape(resume: bool, download: bool, local: seq<char>, remote: seq<char>)
    ensures var line := TransferLine(resume, download, local, remote);
      (StartsWith(line, "re") <==> resume) &&
      |line| >= 2 && line[|line| - 2..] == "\r\n" &&
      StartsWith(line, (if resume then "re" else "") + (if download then "get " else "put "))
  {
    var verb := (if resume then "re" else "") + (if download then "get " else "put ");
    var line := TransferLine(resume, download, local, remote);
    assert line == verb + ((if download then remote + " " + local else local + " " + remote) + "\r\n");
    assert line[..|verb|] == verb;
    assert line[0] == verb[0];
  }

  /** Where the operation goes after changing into the directory, by the cache's answer. */
  function AfterCwd(l: CacheLookup, download: bool, preserve: bool): State
  {
    if !l.found then
      if !l.dirDidExist then WaitList
      else if download && preserve then MtimeState
      else TransferState
    else if l.entry.unsure then WaitList
    else if l.matchedCase then
      if download && !l.entry.hasTime && preserve then MtimeState else TransferState
    else MtimeState
  }

  /** Where the operation goes after the listing, by the cache's new answer. */
  function AfterList(l: CacheLookup, download: bool, preserve: bool): State
  {
    if !l.found then
      if !l.dirDidExist then MtimeState
      else if download && preserve then MtimeState
      else TransferState
    else if l.matchedCase && !l.entry.unsure then
      if download && !l.entry.hasTime && preserve then MtimeState else TransferState
    else MtimeState
  }

  predicate Adopts(l: CacheLookup)
  {
    l.found && !l.entry.unsure && l.matchedCase
  }

  /**
   * A listing is requested exactly for an uncached directory or an unsure
   * entry, and the listing's answer never leads to another one; a case
   * mismatch asks the server for the time.
   */
  lemma SftpListsAtMostOnce(l: CacheLookup, download: bool, preserve: bool)
    ensures AfterCwd(l, download, preserve) == WaitList <==>
      (!l.found && !l.dirDidExist) || (l.found && l.entry.unsure)
    ensures AfterList(l, download, preserve) in {MtimeState, TransferState}
    ensures l.found && !l.entry.unsure && !l.matchedCase ==> AfterCwd(l, download, preserve) == MtimeState
  {
  }

  /** A sideband answer carrying numbers: `-` and the numbers separated by spaces. */
  function NumbersReply(ns: seq<nat>): (s: seq<char>)
    ensures |s| >= 1 && s[0] == '-'
  {
    if |ns| == 0 then "-" else NumbersReply(ns[..|ns| - 1]) + (if |ns| == 1 then "" else " ") + Decimal(ns[|ns| - 1])
  }

  /** The numbers in decimal, in order, one space between neighbours. */
  function Spaced(ns: seq<nat>): seq<char>
  {
    if |ns| == 0 then "" else if |ns| == 1 then Decimal(ns[0]) else Decimal(ns[0]) + " " + Spaced(ns[1..])
  }

  lemma {:induction false} SpacedSnoc(ns: seq<nat>, n: nat)
    requires ns != []
    ensures Spaced(ns + [n]) == Spaced(ns) + " " + Decimal(n)
    decreases |ns|
  {
    if |ns| == 1 {
      assert (ns + [n])[1..] == [n];
    } else {
      assert (ns + [n])[1..] == ns[1..] + [n];
      SpacedSnoc(ns[1..], n);
    }
  }

  /** Any number of numbers answered: `-`, then the numbers separated by single spaces. */
  lemma {:induction false} NumbersReplySpaced(ns: seq<nat>)
    ensures NumbersReply(ns) == "-" + Spaced(ns)
    decreases |ns|
  {
    if |ns| > 1 {
      var init := ns[..|ns| - 1];
      NumbersReplySpaced(init);
      SpacedSnoc(init, ns[|ns| - 1]);
      assert init + [ns[|ns| - 1]] == ns;
    }
  }

  /** Two numbers answered, as the mapped block is reported on upload. */
  lemma NumbersReplyTwo(a: nat, b: nat)
    ensures NumbersReply([a, b]) == "-" + Decimal(a) + " " + Decimal(b)
  {
    NumbersReplySpaced([a, b]);
    assert [a, b][1..] == [b];
  }

  /** One number answered: `-` followed by its decimal digits. */
  lemma NumbersReplyOne(n: nat)
    ensures NumbersReply([n]) == "-" + Decimal(n)
  {
    assert [n][..0] == [];
  }

  class SftpFileTransfer {
    const download: bool
    const resume: bool
    const localFile: seq<char>
    const localQuoted: seq<char>    // QuoteFilename(localFile_)
    const remoteQuoted: seq<char>   // the quoted remote name in the server's encoding

    var opState: State
    var localFileSize: int
    var remoteFileSize: int
    var fileTime: Option<int>
    var tryAbsolutePath: bool
    var transferInitiated: bool
    var requests: seq<Request>
    var stream: seq<char>           // text sent to fzsftp
    var localTimeSet: Option<int>
    var hasReader: bool
    var hasWriter: bool
    var finalizing: bool

    constructor (download: bool, resume: bool, localFile: seq<char>, localQuoted: seq<char>, remoteQuoted: seq<char>)
      ensures this.download == download && this.resume == resume && this.localFile == localFile
      ensures this.localQuoted == localQuoted && this.remoteQuoted == remoteQuoted
      ensures opState == Init && localFileSize == -1 && remoteFileSize == -1 && fileTime == None
      ensures requests == [] && stream == [] && !hasReader && !hasWriter && !finalizing && !transferInitiated
    {
      this.download, this.resume, this.localFile := download, resume, localFile;
      this.localQuoted, this.remoteQuoted := localQuoted, remoteQuoted;
      opState := Init;
      localFileSize, remoteFileSize := -1, -1;
      fileTime := None;
      tryAbsolutePath, transferInitiated := false, false;
      requests, stream := [], [];
      localTimeSet := None;
      hasReader, hasWriter, finalizing := false, false, false;
    }

    /**
     * `Send`: start by changing into the directory, send the transfer
     * line, `mtime` or `chmtime`; `chmtime` while downloading and any
     * other state are internal errors.
     */
    method Send(env: Env) returns (r: Reply)
      modifies this
      ensures old(opState) == Init && localFile == [] ==> r == NoLocalFile(download) && unchanged(this)
      ensures old(opState) == Init && localFile != [] ==>
        r == ReplyContinue && opState == WaitCwd && requests == old(requests) + [ChangeDir] &&
        localFileSize == (if env.localFileSize.Some? then env.localFileSize.value else old(localFileSize))
      ensures old(opState) == TransferState && !env.encodingOk ==> r == ReplyError && stream == old(stream)
      ensures old(opState) == TransferState && env.encodingOk ==>
        r == env.sendResult && transferInitiated &&
        stream == old(stream) + TransferLine(resume, download, localQuoted, remoteQuoted)
      ensures old(opState) == TransferState ==>
        requests == old(requests) + (if download && !resume then [CreateLocalDir] else [])
      ensures old(opState) == MtimeState ==> r == env.sendResult && requests == old(requests) + [MtimeCmd]
      ensures old(opState) == ChmtimeState && download ==> r == ReplyInternal && unchanged(this)
      ensures old(opState) == ChmtimeState && !download ==>
        r == env.sendResult &&
        requests == old(requests) + [ChmtimeCmd(
          if fileTime.Some? then Some(ToServerTime(fileTime.value, env.timezoneOffset)) else None)]
      ensures old(opState) in {WaitCwd, WaitList} ==> r == ReplyInternal && unchanged(this)
    {
      match opState {
        case Init =>
          if localFile == [] {
            return NoLocalFile(download);
          }
          if env.localFileSize.Some? {
            localFileSize := env.localFileSize.value;
          }
          opState := WaitCwd;
          requests := requests + [ChangeDir];
          r := ReplyContinue;
        case TransferState =>
          if download && !resume {
            requests := requests + [CreateLocalDir];
          }
          if !env.encodingOk {
            return ReplyError;
          }
          transferInitiated := true;
          stream := stream + TransferLine(resume, download, localQuoted, remoteQuoted);
          r := env.sendResult;
        case MtimeState =>
          requests := requests + [MtimeCmd];
          r := env.sendResult;
        case ChmtimeState =>
          if download {
            return ReplyInternal;
          }
          var t := if fileTime.Some? then Some(ToServerTime(fileTime.value, env.timezoneOffset)) else None;
          requests := requests + [ChmtimeCmd(t)];
          r := env.sendResult;
        case _ =>
          r := ReplyInternal;
      }
    }

    /**
     * `ParseResponse`; `result` is the command's outcome and `response` its
     * text. An `mtime` reply is used only when it is all digits: it gives
     * the time in seconds, moved by the server's offset; either way the
     * operation continues to the overwrite check and the transfer. After an
     * upload that keeps timestamps the local time is sent with `chmtime`.
     */
    method ParseResponse(result: Reply, response: seq<char>, env: Env) returns (r: Reply)
      modifies this
      ensures old(opState) == MtimeState ==>
        opState == TransferState &&
        r == (if env.overwrite != ReplyOk then env.overwrite else ReplyContinue) &&
        fileTime == (if result == ReplyOk && response != [] && AllDigits(response)
                     then Some(FromServerTime(DigitsValue(response), env.timezoneOffset))
                     else old(fileTime))
      ensures old(opState) == TransferState ==>
        if result == ReplyOk && env.preserveTimestamps && !download && env.localMtime.Some?
        then opState == ChmtimeState && fileTime == env.localMtime && r == ReplyContinue
        else r == result && opState == TransferState &&
             localTimeSet == (if result == ReplyOk && env.preserveTimestamps && download && old(fileTime).Some?
                              then old(fileTime) else old(localTimeSet))
      ensures old(opState) == ChmtimeState ==> r == (if download then ReplyInternal else ReplyOk) && unchanged(this)
      ensures old(opState) !in {MtimeState, TransferState, ChmtimeState} ==> r == ReplyInternal && unchanged(this)
      ensures requests == old(requests) && stream == old(stream)
    {
      if opState == TransferState {
        if result == ReplyOk && env.preserveTimestamps {
          if download {
            if fileTime.Some? {
              localTimeSet := fileTime;
            }
          } else {
            fileTime := env.localMtime;
            if fileTime.Some? {
              opState := ChmtimeState;
              return ReplyContinue;
            }
          }
        }
        return result;
      } else if opState == MtimeState {
        if result == ReplyOk && response != [] {
          var seconds := ParseNumber(response);
          if seconds.Some? {
            fileTime := Some(FromServerTime(seconds.value, env.timezoneOffset));
          }
        }
        opState := TransferState;
        if env.overwrite != ReplyOk {
          return env.overwrite;
        }
        return ReplyContinue;
      } else if opState == ChmtimeState {
        if download {
          return ReplyInternal;
        }
        return ReplyOk;
      }
      r := ReplyInternal;
    }

    /** `SubcommandResult`: the directory change or the listing finished with `prev`. */
    method SubcommandResult(prev: Reply, env: Env) returns (r: Reply)
      modifies this
      ensures old(opState) == WaitCwd && prev == ReplyOk ==>
        opState == AfterCwd(env.lookup, download, env.preserveTimestamps) &&
        (opState == WaitList ==> requests == old(requests) + [ListRefresh] && r == ReplyContinue) &&
        (opState == TransferState ==> r == (if env.overwrite != ReplyOk then env.overwrite else ReplyContinue)) &&
        (opState == MtimeState ==> r == ReplyContinue) &&
        (Adopts(env.lookup) ==> remoteFileSize == env.lookup.entry.size &&
                                fileTime == (if env.lookup.entry.time.Some? then env.lookup.entry.time else old(fileTime))) &&
        (!Adopts(env.lookup) ==> remoteFileSize == old(remoteFileSize) && fileTime == old(fileTime))
      ensures old(opState) in {WaitCwd, WaitList} && prev != ReplyOk ==>
        opState == MtimeState && r == ReplyContinue && (old(opState) == WaitCwd ==> tryAbsolutePath)
      ensures old(opState) == WaitList && prev == ReplyOk ==>
        opState == AfterList(env.lookup, download, env.preserveTimestamps) && requests == old(requests) &&
        r == (if opState == TransferState && env.overwrite != ReplyOk then env.overwrite else ReplyContinue) &&
        (Adopts(env.lookup) ==> remoteFileSize == env.lookup.entry.size &&
                                fileTime == (if env.lookup.entry.time.Some? then env.lookup.entry.time else old(fileTime))) &&
        (!Adopts(env.lookup) ==> remoteFileSize == old(remoteFileSize) && fileTime == old(fileTime))
      ensures old(opState) !in {WaitCwd, WaitList} ==> r == ReplyInternal && unchanged(this)
    {
      if opState == WaitCwd {
        if prev == ReplyOk {
          var l := env.lookup;
          opState := AfterCwd(l, download, env.preserveTimestamps);
          if Adopts(l) {
            AdoptEntry(l.entry);
          }
          if opState == WaitList {
            requests := requests + [ListRefresh];
            return ReplyContinue;
          } else if opState == TransferState && env.overwrite != ReplyOk {
            return env.overwrite;
          }
        } else {
          tryAbsolutePath := true;
          opState := MtimeState;
        }
      } else if opState == WaitList {
        if prev == ReplyOk {
          var l := env.lookup;
          opState := AfterList(l, download, env.preserveTimestamps);
          if Adopts(l) {
            AdoptEntry(l.entry);
          }
          if opState == TransferState && env.overwrite != ReplyOk {
            return env.overwrite;
          }
        } else {
          opState := MtimeState;
        }
      } else {
        return ReplyInternal;
      }
      r := ReplyContinue;
    }

    method AdoptEntry(e: Direntry)
      modifies this`remoteFileSize, this`fileTime
      ensures remoteFileSize == e.size
      ensures fileTime == (if e.time.Some? then e.time else old(fileTime))
    {
      remoteFileSize := e.size;
      if e.time.Some? {
        fileTime := e.time;
      }
    }

    /**
     * `OnOpenRequested`: the helper asks to open the local file at
     * `offset`. A second open is refused (`-0`); a resumed download whose
     * local size is unknown gets `-1`; a failed open `--`. Otherwise the
     * handle of the shared memory (`handle`, duplicated into the helper
     * unless `duplicated` is false, which resets the operation) and its
     * size are sent, for downloads with the start offset too.
     */
    method OnOpenRequested(offset: nat, writerSize: nat, openOk: bool, duplicated: bool, handle: nat, memorySize: nat)
      returns (start: nat)
      modifies this`stream, this`hasReader, this`hasWriter, this`requests
      ensures old(hasReader) || old(hasWriter) ==>
        stream == old(stream) + "-0\n" && hasReader == old(hasReader) && hasWriter == old(hasWriter) && requests == old(requests)
      ensures !old(hasReader) && !old(hasWriter) && download && resume && writerSize == NoSize ==>
        stream == old(stream) + "-1\n" && !hasReader && !hasWriter
      ensures !old(hasReader) && !old(hasWriter) && !(download && resume && writerSize == NoSize) ==>
        start == (if !download then offset else if resume then writerSize else 0) &&
        hasReader == (!download && openOk) && hasWriter == (download && openOk) &&
        (!openOk ==> stream == old(stream) + "--\n" && requests == old(requests)) &&
        (openOk && !duplicated ==> stream == old(stream) && requests == old(requests) + [ResetOperation(ReplyError)]) &&
        (openOk && duplicated && !download ==> stream == old(stream) + NumbersReply([handle, memorySize]) + "\n") &&
        (openOk && duplicated && download ==> stream == old(stream) + NumbersReply([handle, memorySize, start]))
    {
      start := offset;
      if hasReader || hasWriter {
        stream := stream + "-0\n";
        return;
      }
      if download {
        if resume {
          start := writerSize;
          if start == NoSize {
            stream := stream + "-1\n";
            return;
          }
        } else {
          start := 0;
        }
        hasWriter := openOk;
      } else {
        hasReader := openOk;
      }
      if !openOk {
        stream := stream + "--\n";
        return;
      }
      if !duplicated {
        requests := requests + [ResetOperation(ReplyError)];
        return;
      }
      if download {
        stream := stream + NumbersReply([handle, memorySize, start]);
      } else {
        stream := stream + NumbersReply([handle, memorySize]) + "\n";
      }
    }

    /**
     * `OnNextBufferRequested`: hand the helper the next buffer of the reader
     * or the writer, as its offset in the shared memory and its size (the
     * reader's data) or capacity (the writer's room). `result` is what
     * `read()` or `get_write_buffer()` answered.
     */
    method OnNextBufferRequested(result: AioResult, bufferOffset: nat, bufferSize: nat)
      modifies this`stream
      ensures !hasReader && !hasWriter ==> stream == old(stream) + "--1\n"
      ensures hasReader || hasWriter ==>
        match result
          case Wait => stream == old(stream)
          case Error => stream == old(stream) + "--1\n"
          case Ok => stream == old(stream) + NumbersReply([bufferOffset, bufferSize]) + "\n"
    {
      if !hasReader && !hasWriter {
        stream := stream + "--1\n";
        return;
      }
      match result {
        case Wait =>
        case Error =>
          stream := stream + "--1\n";
        case Ok =>
          stream := stream + NumbersReply([bufferOffset, bufferSize]) + "\n";
      }
    }

    /**
     * `OnFinalizeRequested`: from now on writer events retry `finalize`;
     * its `ok` is answered `-1`, its error `-0`, and a `wait` not at all.
     */
    method OnFinalizeRequested(result: AioResult)
      requires hasWriter
      modifies this`stream, this`finalizing
      ensures finalizing
      ensures stream == old(stream) + (match result case Wait => "" case Ok => "-1\n" case Error => "-0\n")
    {
      finalizing := true;
      match result {
        case Wait =>
        case Ok =>
          stream := stream + "-1\n";
        case Error =>
          stream := stream + "-0\n";
      }
    }

    /**
     * `OnWriterEvent`: the writer has room again or has finished; retry
     * whichever call waited. `result` is what that retried call answers.
     */
    method OnWriterEvent(result: AioResult, bufferOffset: nat, bufferSize: nat)
      requires hasWriter
      modifies this`stream, this`finalizing
      ensures finalizing == old(finalizing)
      ensures old(finalizing) ==>
        stream == old(stream) + (match result case Wait => "" case Ok => "-1\n" case Error => "-0\n")
      ensures !old(finalizing) ==>
        match result
          case Wait => stream == old(stream)
          case Error => stream == old(stream) + "--1\n"
          case Ok => stream == old(stream) + NumbersReply([bufferOffset, bufferSize]) + "\n"
    {
      if finalizing {
        OnFinalizeRequested(result);
      } else {
        OnNextBufferRequested(result, bufferOffset, bufferSize);
      }
    }

    /**
     * `OnSizeRequested`: the size of the open reader's or writer's file
     * (`readerSize`/`writerSize`), or `--1` when there is none or it is
     * unknown.
     */
    method OnSizeRequested(readerSize: nat, writerSize: nat)
      modifies this`stream
      ensures var size := if hasReader then readerSize else if hasWriter then writerSize else NoSize;
        stream == old(stream) + (if size == NoSize then "--1\n" else NumbersReply([size]) + "\n")
    {
      var size := NoSize;
      if hasReader {
        size := readerSize;
      } else if hasWriter {
        size := writerSize;
      }
      if size == NoSize {
        stream := stream + "--1\n";
      } else {
        stream := stream + NumbersReply([size]) + "\n";
      }
    }
  }
}
