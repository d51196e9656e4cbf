/**
 * `LookupOpData`: find one file's directory entry, from the cache if it
 * can answer, otherwise after one fresh listing of the directory.
 */
module Lookup {
  import opened Common
  import opened Transfer

  datatype State = Init | ListState

  /**
   * What the cache answers for the file: whether the file was found,
   * whether its directory is known, and the entry (`None` for an empty one).
   */
  datatype Answer = Answer(found: bool, dirExists: bool, entry: Option<Direntry>)

  /** What the operation asks of the cache and the control socket. */
  datatype Request = CacheQuery(allowOutdated: bool) | ListRefresh

  /** The cache settles the question: a usable entry, or a known directory without the file. */
  predicate Settled(a: Answer)
  {
    if a.found then a.entry.Some? && !a.entry.value.unsure else a.dirExists
  }

  class LookupOp {
    const path: seq<char>
    const file: seq<char>
    var opState: State
    var entry: Option<Direntry>     // *entry_, cleared on construction
    var requests: seq<Request>

    constructor (path: seq<char>, file: seq<char>)
      ensures this.path == path && this.file == file
      ensures opState == Init && entry == None && requests == []
    {
      this.path, this.file := path, file;
      opState := Init;
      entry := None;
      requests := [];
    }

    /**
     * `Send`: with an empty path or name the lookup is an internal error.
     * Otherwise the cache is asked (accepting an outdated answer after the
     * listing); a settled answer ends the lookup with success, storing a
     * found entry; an unsettled one asks for one listing, and after that
     * listing it is an error.
     */
    method Send(answer: Answer) returns (r: Reply)
      modifies this`opState, this`entry, this`requests
      ensures path == [] || file == [] ==> r == ReplyInternal && unchanged(this)
      ensures path != [] && file != [] ==>
        requests == old(requests) + [CacheQuery(old(opState) == ListState)] +
                    (if !Settled(answer) && old(opState) == Init then [ListRefresh] else [])
      ensures path != [] && file != [] ==> (r == ReplyOk <==> Settled(answer))
      ensures path != [] && file != [] && Settled(answer) ==>
        opState == old(opState) && entry == (if answer.found then answer.entry else old(entry))
      ensures path != [] && file != [] && !Settled(answer) ==>
        opState == ListState && entry == old(entry) &&
        r == (if old(opState) == Init then ReplyContinue else ReplyError)
    {
      if path == [] || file == [] {
        return ReplyInternal;
      }
      requests := requests + [CacheQuery(opState == ListState)];
      if answer.found {
        if answer.entry.Some? && !answer.entry.value.unsure {
          entry := answer.entry;
          return ReplyOk;
        }
      } else if answer.dirExists {
        return ReplyOk;
      }
      if opState == Init {
        opState := ListState;
        requests := requests + [ListRefresh];
        return ReplyContinue;
      }
      r := ReplyError;
    }

    /** `ParseResponse`: a lookup sends no command of its own. */
    method ParseResponse() returns (r: Reply)
      ensures r == ReplyInternal
    {
      r := ReplyInternal;
    }

    /**
     * `SubcommandResult`: the listing's success sends the operation back to
     * `Send`; its failure is the lookup's failure.
     */
    method SubcommandResult(prev: Reply) returns (r: Reply)
      ensures opState == ListState ==> r == (if prev == ReplyOk then ReplyContinue else prev)
      ensures opState == Init ==> r == ReplyInternal
    {
      if opState == ListState {
        if prev == ReplyOk {
          return ReplyContinue;
        }
        return prev;
      }
      r := ReplyInternal;
    }
  }
}
