/**
 * What the file-transfer operations of the engine (FTP, SFTP, Storj) and
 * the cache lookup share: reply codes, server capability states, the
 * directory-cache answer, and the values their collaborators return.
 */
module Transfer {
  import opened Common

  /**
   * The flag bits of an engine reply code (`FZ_REPLY_*`); a reply is the
   * set of its bits and `FZ_REPLY_OK` is the empty set, so `|` is union.
   */
  datatype ReplyFlag = ErrorFlag | CriticalFlag | SyntaxFlag | InternalFlag | NotSupportedFlag | ContinueFlag | WouldBlockFlag

  type Reply = set<ReplyFlag>

  const ReplyOk: Reply := {}
  const ReplyError: Reply := {ErrorFlag}
  const ReplyCritical: Reply := {ErrorFlag, CriticalFlag}
  const ReplySyntax: Reply := {ErrorFlag, SyntaxFlag}
  const ReplyInternal: Reply := {ErrorFlag, InternalFlag}
  const ReplyNotSupported: Reply := {ErrorFlag, NotSupportedFlag}
  const ReplyContinue: Reply := {ContinueFlag}

  /** A per-server capability: not yet known, present, absent. */
  datatype CapState = Unknown | Yes | No

  /**
   * A cached directory entry: its size, whether the cache marks it unsure,
   * its time (seconds) if it has a date, and whether that time has a time
   * of day.
   */
  datatype Direntry = Direntry(size: int, unsure: bool, time: Option<int>, hasTime: bool)

  /** What `CDirectoryCache::LookupFile` answers. */
  datatype CacheLookup = CacheLookup(found: bool, entry: Direntry, dirDidExist: bool, matchedCase: bool)

  /**
   * What the collaborators of one call return: the local file system, the
   * option store, the writer factory, the control socket and the overwrite
   * check.
   */
  datatype Env = Env(
    localFileSize: Option<int>,   // size, when the local file is a regular file
    localMtime: Option<int>,      // local modification time, when there is one
    writerSize: nat,              // writer_factory_.size(), `NoSize` for none
    preserveTimestamps: bool,     // OPTION_PRESERVE_TIMESTAMPS
    timezoneOffset: int,          // the server's offset in minutes
    openOk: bool,                 // the reader/writer factory opened the file
    sendResult: Reply,            // what sending a command returns
    lookup: CacheLookup,
    overwrite: Reply,             // CheckOverwriteFile()
    parsedTime: Option<int>,      // the date a reply parses to, if any
    failedResumeTest: bool,       // transferEndReason == failed_resumetest
    encodingOk: bool)             // the remote name converts to the server encoding

  /**
   * The answer of every transfer operation to an empty local file name:
   * an error, a syntax error for downloads and an unsupported, critical
   * error for uploads.
   */
  function NoLocalFile(download: bool): (r: Reply)
    ensures ErrorFlag in r && ContinueFlag !in r
    ensures download ==> SyntaxFlag in r && CriticalFlag !in r
    ensures !download ==> CriticalFlag in r && NotSupportedFlag in r && SyntaxFlag !in r
  {
    if download then ReplySyntax else ReplyCritical + ReplyNotSupported
  }

  /** A local time as the server sees it: the server's offset taken off. */
  function ToServerTime(t: int, offsetMinutes: int): int
  {
    t - offsetMinutes * 60
  }

  /** A server time as local time: the server's offset added. */
  function FromServerTime(t: int, offsetMinutes: int): int
  {
    t + offsetMinutes * 60
  }

  /** The two timezone adjustments undo each other. */
  lemma ServerTimeRoundTrip(t: int, offsetMinutes: int)
    ensures ToServerTime(FromServerTime(t, offsetMinutes), offsetMinutes) == t
    ensures FromServerTime(ToServerTime(t, offsetMinutes), offsetMinutes) == t
  {
  }
}
