/**
 * The edit handler's bookkeeping of files opened for editing: two lists of
 * tracked files (local files, and downloaded copies of remote files), each
 * entry with a state; adding, removing and finishing transfers move entries
 * between states or drop them. Also the naming of temporary copies and the
 * lookup of a custom editor association.
 *
 * The file system is a parameter: `fs.present` holds the files that exist
 * and `fs.stuck` those of them that cannot be deleted. Starting an editor
 * and queueing a transfer happen outside; whether an editor started is a
 * parameter.
 */
module EditHandler {
  import opened Common
  import opened Text
  import FileUtils

  datatype FileState = Unknown | Edit | Download | Upload | UploadAndRemove | UploadAndRemoveFailed | Removing

  /** Which list an operation is about; `NoType` stands for both where a count allows it. */
  datatype FileType = NoType | Local | Remote

  /** A site as the handler compares it; `NoSite` is the empty site that `!site` tests for. */
  datatype Site = NoSite | SiteOf(id: nat)

  /** `t_fileData`, without the modification time. */
  datatype FileData = FileData(state: FileState, localFile: seq<char>, remoteFile: seq<char>, remotePath: seq<char>,
                               site: Site)

  /** The files that exist, and those of them whose deletion fails. */
  datatype FileSystem = FileSystem(present: set<seq<char>>, stuck: set<seq<char>>)

  predicate FileExists(fs: FileSystem, f: seq<char>)
  {
    f in fs.present
  }

  /** `FileExists(f) && !wxRemoveFile(f)`: a local copy that cannot be got rid of. */
  predicate CopyStays(fs: FileSystem, f: seq<char>)
  {
    f in fs.present && f in fs.stuck
  }

  /** A transfer the remote list must not forget: download, upload, or upload then remove. */
  predicate Transferring(s: FileState)
  {
    s == Download || s == Upload || s == UploadAndRemove
  }

  predicate Uploading(s: FileState)
  {
    s == Upload || s == UploadAndRemove
  }

  // ---------------------------------------------------------------------
  // Lookup

  /** How `GetFile` identifies an entry: local entries by local file, remote ones by name, path and site. */
  predicate SameKey(a: FileData, b: FileData, t: FileType)
  {
    if t == Local then a.localFile == b.localFile
    else a.remoteFile == b.remoteFile && a.remotePath == b.remotePath && a.site == b.site
  }

  /** The key `GetFile` looks for: the local file, or the remote file with its path and site. */
  function Probe(t: FileType, name: seq<char>, path: seq<char>, site: Site): FileData
  {
    if t == Local then FileData(Unknown, name, [], [], NoSite) else FileData(Unknown, [], name, path, site)
  }

  /** The first entry with the key of `probe`, or -1. */
  function IndexOf(l: seq<FileData>, probe: FileData, t: FileType): (i: int)
    ensures -1 <= i < |l|
    ensures i >= 0 ==> SameKey(l[i], probe, t)
    ensures forall j :: 0 <= j < |l| && (i < 0 || j < i) ==> !SameKey(l[j], probe, t)
  {
    if l == [] then -1
    else if SameKey(l[0], probe, t) then 0
    else
      var k := IndexOf(l[1..], probe, t);
      if k < 0 then -1 else k + 1
  }

  /** `GetFile`'s loop: the first entry with the key, or -1 for `end()`. */
  method GetFile(l: seq<FileData>, probe: FileData, t: FileType) returns (i: int)
    ensures i == IndexOf(l, probe, t)
  {
    i := 0;
    while i < |l|
      invariant 0 <= i <= |l|
      invariant IndexOf(l, probe, t) == -1 || i <= IndexOf(l, probe, t)
      invariant forall j :: 0 <= j < i ==> !SameKey(l[j], probe, t)
    {
      if SameKey(l[i], probe, t) {
        return i;
      }
      i := i + 1;
    }
    return -1;
  }

  /** `GetFileState`: the entry's state, `Unknown` when there is none. */
  function StateOf(l: seq<FileData>, probe: FileData, t: FileType): (s: FileState)
    ensures IndexOf(l, probe, t) < 0 ==> s == Unknown
    ensures IndexOf(l, probe, t) >= 0 ==> s == l[IndexOf(l, probe, t)].state
  {
    var i := IndexOf(l, probe, t);
    if i < 0 then Unknown else l[i].state
  }

  /** No two entries of a list share a key. */
  predicate Unique(l: seq<FileData>, t: FileType)
  {
    forall i, j :: 0 <= i < j < |l| ==> !SameKey(l[i], l[j], t)
  }

  /** Every tracked entry has a state other than `Unknown`. */
  predicate Known(l: seq<FileData>)
  {
    forall d :: d in l ==> d.state != Unknown
  }

  /** An entry appended under a key the list lacks is the one found by that key. */
  lemma {:induction false} IndexOfAppended(l: seq<FileData>, d: FileData, probe: FileData, t: FileType)
    requires IndexOf(l, probe, t) < 0 && SameKey(d, probe, t)
    ensures IndexOf(l + [d], probe, t) == |l|
    ensures Unique(l, t) ==> Unique(l + [d], t)
    decreases |l|
  {
    if l != [] {
      assert (l + [d])[1..] == l[1..] + [d];
      assert IndexOf(l[1..], probe, t) < 0;
      IndexOfAppended(l[1..], d, probe, t);
    }
    var l' := l + [d];
    forall i, j | 0 <= i < j < |l'| && Unique(l, t)
      ensures !SameKey(l'[i], l'[j], t)
    {
      if j == |l| {
        assert !SameKey(l[i], probe, t);
      }
    }
  }

  /** The list without entry `i`. */
  function Without(l: seq<FileData>, i: nat): (r: seq<FileData>)
    requires i < |l|
    ensures |r| == |l| - 1
    ensures forall j :: 0 <= j < i ==> r[j] == l[j]
    ensures forall j :: i <= j < |r| ==> r[j] == l[j + 1]
  {
    l[..i] + l[i + 1..]
  }

  /** Entry `i` with a new state. */
  function WithState(l: seq<FileData>, i: nat, s: FileState): (r: seq<FileData>)
    requires i < |l|
    ensures |r| == |l| && r[i].state == s
  {
    l[i := l[i].(state := s)]
  }

  /** Dropping an entry keeps keys unique, and in a unique list its key is then gone. */
  lemma WithoutUnique(l: seq<FileData>, i: nat, t: FileType)
    requires i < |l| && Unique(l, t)
    ensures Unique(Without(l, i), t)
    ensures IndexOf(Without(l, i), l[i], t) < 0
  {
    var r := Without(l, i);
    forall a, b | 0 <= a < b < |r|
      ensures !SameKey(r[a], r[b], t)
    {
      var a' := if a < i then a else a + 1;
      var b' := if b < i then b else b + 1;
      assert r[a] == l[a'] && r[b] == l[b'];
    }
    forall k | 0 <= k < |r|
      ensures !SameKey(r[k], l[i], t)
    {
      var k' := if k < i then k else k + 1;
      assert r[k] == l[k'];
      if k' < i {
        assert !SameKey(l[k'], l[i], t);
      } else {
        assert !SameKey(l[i], l[k'], t);
      }
    }
  }

  /** Dropping the entry found by a key leaves a valid list without that key. */
  lemma DropFound(l: seq<FileData>, probe: FileData, t: FileType)
    requires Unique(l, t) && Known(l) && IndexOf(l, probe, t) >= 0
    ensures var r := Without(l, IndexOf(l, probe, t));
            Unique(r, t) && Known(r) && StateOf(r, probe, t) == Unknown
  {
    var i := IndexOf(l, probe, t);
    UpdateUnique(l, i, None, t);
    WithoutUnique(l, i, t);
    var r := Without(l, i);
    assert Update(l, i, None) == r;
    forall k | 0 <= k < |r|
      ensures !SameKey(r[k], probe, t)
    {
      assert !SameKey(r[k], l[i], t);
    }
  }

  /** A new state keeps keys unique. */
  lemma WithStateUnique(l: seq<FileData>, i: nat, s: FileState, t: FileType)
    requires i < |l| && Unique(l, t)
    ensures Unique(WithState(l, i, s), t)
  {
    var r := WithState(l, i, s);
    forall a, b | 0 <= a < b < |r|
      ensures !SameKey(r[a], r[b], t)
    {
      assert SameKey(r[a], r[b], t) == SameKey(l[a], l[b], t);
    }
  }

  /** What becomes of entry `i`: `None` drops it, `Some(s)` gives it state `s`. */
  function Update(l: seq<FileData>, i: nat, next: Option<FileState>): (r: seq<FileData>)
    requires i < |l|
  {
    match next
    case None => Without(l, i)
    case Some(s) => WithState(l, i, s)
  }

  lemma UpdateUnique(l: seq<FileData>, i: nat, next: Option<FileState>, t: FileType)
    requires i < |l| && Unique(l, t) && Known(l) && next != Some(Unknown)
    ensures Unique(Update(l, i, next), t) && Known(Update(l, i, next))
  {
    var r := Update(l, i, next);
    forall d | d in r
      ensures d.state != Unknown
    {
      var j :| 0 <= j < |r| && r[j] == d;
      if next.None? {
        assert d == l[if j < i then j else j + 1];
      } else if j != i {
        assert d == l[j];
      }
    }
    if next.None? {
      WithoutUnique(l, i, t);
    } else {
      WithStateUnique(l, i, next.value, t);
    }
  }

  // ---------------------------------------------------------------------
  // RemoveAll: sweeping a list

  /** The three sweeps: `RemoveAll(force)` over each list, and `RemoveAll(upload_and_remove_failed, site)`. */
  datatype Rule = AllRemote(force: bool) | AllLocal(force: bool) | FailedUploads(site: Site)

  /**
   * What one entry leaves behind: kept as it is, kept as `Removing` because
   * its local copy cannot be deleted, or nothing.
   */
  function Kept(d: FileData, rule: Rule, fs: FileSystem): (r: seq<FileData>)
    ensures |r| <= 1
    ensures forall e :: e in r ==> SameKey(e, d, Local) && SameKey(e, d, Remote) && (e == d || e == d.(state := Removing))
  {
    match rule
    case AllRemote(force) =>
      if !force && Transferring(d.state) then [d]
      else if CopyStays(fs, d.localFile) then [d.(state := Removing)]
      else []
    case AllLocal(force) =>
      if !force && Uploading(d.state) then [d] else []
    case FailedUploads(site) =>
      if d.state != UploadAndRemoveFailed || (site != NoSite && d.site != site) then [d]
      else if CopyStays(fs, d.localFile) then [d.(state := Removing)]
      else []
  }

  /** The list a sweep leaves: each entry's remains, in order. */
  function Sweep(l: seq<FileData>, rule: Rule, fs: FileSystem): (r: seq<FileData>)
    ensures |r| <= |l|
    decreases |l|
  {
    if l == [] then [] else Sweep(l[..|l| - 1], rule, fs) + Kept(l[|l| - 1], rule, fs)
  }

  /** The loop that fills `keep` and swaps it in. */
  method SweepList(l: seq<FileData>, rule: Rule, fs: FileSystem) returns (keep: seq<FileData>)
    ensures keep == Sweep(l, rule, fs)
  {
    keep := [];
    var i := 0;
    while i < |l|
      invariant 0 <= i <= |l|
      invariant keep == Sweep(l[..i], rule, fs)
    {
      assert l[..i + 1][..i] == l[..i];
      keep := keep + Kept(l[i], rule, fs);
      i := i + 1;
    }
    assert l[..|l|] == l;
  }

  /** An entry survives a sweep exactly when some entry of the list leaves it behind. */
  lemma {:induction false} SweepMembers(l: seq<FileData>, rule: Rule, fs: FileSystem, e: FileData)
    ensures e in Sweep(l, rule, fs) <==> exists d :: d in l && e in Kept(d, rule, fs)
    decreases |l|
  {
    if l != [] {
      var init, last := l[..|l| - 1], l[|l| - 1];
      assert l == init + [last];
      SweepMembers(init, rule, fs, e);
      if e in Sweep(l, rule, fs) && e !in Sweep(init, rule, fs) {
        assert e in Kept(last, rule, fs);
      }
      if exists d :: d in l && e in Kept(d, rule, fs) {
        var d :| d in l && e in Kept(d, rule, fs);
        if d != last {
          assert d in init;
        }
      }
    }
  }

  /** A sweep keeps keys unique. */
  lemma {:induction false} SweepUnique(l: seq<FileData>, rule: Rule, fs: FileSystem, t: FileType)
    requires Unique(l, t)
    ensures Unique(Sweep(l, rule, fs), t)
    decreases |l|
  {
    if l != [] {
      var init, last := l[..|l| - 1], l[|l| - 1];
      assert Unique(init, t);
      SweepUnique(init, rule, fs, t);
      var s, k := Sweep(init, rule, fs), Kept(last, rule, fs);
      var r := s + k;
      forall a, b | 0 <= a < b < |r|
        ensures !SameKey(r[a], r[b], t)
      {
        if b >= |s| {
          assert r[b] in k && r[a] in s;
          SweepMembers(init, rule, fs, r[a]);
          var d :| d in init && r[a] in Kept(d, rule, fs);
          var j :| 0 <= j < |init| && init[j] == d;
          assert !SameKey(l[j], l[|l| - 1], t);
        }
      }
    }
  }

  /** A sweep leaves no entry without a state. */
  lemma SweepKnown(l: seq<FileData>, rule: Rule, fs: FileSystem)
    requires Known(l)
    ensures Known(Sweep(l, rule, fs))
  {
    forall e | e in Sweep(l, rule, fs)
      ensures e.state != Unknown
    {
      SweepMembers(l, rule, fs, e);
    }
  }

  /** With `force` the local list always ends up empty. */
  lemma {:induction false} ForcedLocalEmpty(l: seq<FileData>, fs: FileSystem)
    ensures Sweep(l, AllLocal(true), fs) == []
    decreases |l|
  {
    if l != [] {
      ForcedLocalEmpty(l[..|l| - 1], fs);
    }
  }

  /**
   * With `force`, what is left of the remote list are exactly the entries
   * whose local copy stays, now `Removing`.
   */
  lemma ForcedRemoteLeft(l: seq<FileData>, fs: FileSystem, e: FileData)
    ensures e in Sweep(l, AllRemote(true), fs) <==>
            e.state == Removing && CopyStays(fs, e.localFile) && exists d :: d in l && e == d.(state := Removing)
  {
    SweepMembers(l, AllRemote(true), fs, e);
  }

  /** So a forced `RemoveAll` empties the remote list exactly when no local copy stays. */
  lemma ForcedRemoteEmpty(l: seq<FileData>, fs: FileSystem)
    ensures Sweep(l, AllRemote(true), fs) == [] <==> forall d :: d in l ==> !CopyStays(fs, d.localFile)
  {
    if exists d :: d in l && CopyStays(fs, d.localFile) {
      var d :| d in l && CopyStays(fs, d.localFile);
      ForcedRemoteLeft(l, fs, d.(state := Removing));
    }
    if Sweep(l, AllRemote(true), fs) != [] {
      var e := Sweep(l, AllRemote(true), fs)[0];
      ForcedRemoteLeft(l, fs, e);
    }
  }

  /** Without `force`, every active transfer stays, unchanged, in either list. */
  lemma UnforcedKeepsTransfers(l: seq<FileData>, fs: FileSystem, d: FileData)
    requires d in l
    ensures Transferring(d.state) ==> d in Sweep(l, AllRemote(false), fs)
    ensures d in Sweep(l, AllLocal(false), fs) <==> Uploading(d.state)
  {
    SweepMembers(l, AllRemote(false), fs, d);
    SweepMembers(l, AllLocal(false), fs, d);
  }

  /** After clearing failed uploads of a site, none of that site is left in that state. */
  lemma FailedUploadsCleared(l: seq<FileData>, site: Site, fs: FileSystem, e: FileData)
    requires e in Sweep(l, FailedUploads(site), fs)
    ensures e.state == UploadAndRemoveFailed ==> site != NoSite && e.site != site
  {
    SweepMembers(l, FailedUploads(site), fs, e);
  }

  // ---------------------------------------------------------------------
  // Finishing and starting transfers

  /**
   * A finished local transfer: upload-and-remove drops the entry; an
   * upload returns to editing if the file is still there and is dropped
   * otherwise; any other state stays.
   */
  function FinishedLocal(d: FileData, fs: FileSystem): (next: Option<FileState>)
    ensures d.state != Unknown ==> next != Some(Unknown)
    ensures Uploading(d.state) ==> next != Some(Upload) && next != Some(UploadAndRemove)
  {
    match d.state
    case UploadAndRemove => None
    case Upload => if FileExists(fs, d.localFile) then Some(Edit) else None
    case _ => Some(d.state)
  }

  /**
   * A finished remote transfer. Upload-and-remove: on success the local
   * copy goes (`Removing` if it cannot), on failure an existing copy waits
   * as `UploadAndRemoveFailed`. Upload: back to editing if the copy is
   * there. Download: editing if the copy is there and an editor starts
   * (`launches`); otherwise the copy goes. Other states stay.
   */
  function FinishedRemote(d: FileData, successful: bool, fs: FileSystem, launches: bool): (next: Option<FileState>)
    ensures d.state != Unknown ==> next != Some(Unknown)
    ensures Transferring(d.state) ==> next == None || next == Some(Edit) || next == Some(Removing) ||
                                      next == Some(UploadAndRemoveFailed)
    ensures next == Some(UploadAndRemoveFailed) && d.state != UploadAndRemoveFailed ==>
              d.state == UploadAndRemove && !successful
    ensures next == Some(Removing) && d.state != Removing ==> CopyStays(fs, d.localFile)
  {
    var f := d.localFile;
    match d.state
    case UploadAndRemove =>
      if successful then (if CopyStays(fs, f) then Some(Removing) else None)
      else if !FileExists(fs, f) then None
      else Some(UploadAndRemoveFailed)
    case Upload => if FileExists(fs, f) then Some(Edit) else None
    case Download =>
      if FileExists(fs, f) && launches then Some(Edit)
      else if CopyStays(fs, f) then Some(Removing)
      else None
    case _ => Some(d.state)
  }

  /**
   * `UploadFile` on an entry: only from editing or a failed
   * upload-and-remove; the entry is dropped if its local file is not a
   * file or has no name part.
   */
  function UploadNext(d: FileData, unedit: bool, fs: FileSystem): (next: Option<FileState>)
    requires d.state == Edit || d.state == UploadAndRemoveFailed
    ensures next.Some? <==> FileExists(fs, d.localFile) && NamePart(d.localFile) != []
    ensures next.Some? ==> next.value == (if unedit then UploadAndRemove else Upload)
  {
    if !FileExists(fs, d.localFile) || NamePart(d.localFile) == [] then None
    else Some(if unedit then UploadAndRemove else Upload)
  }

  /** The file name `CLocalPath` splits off a local path: what follows the last `/`. */
  function NamePart(path: seq<char>): (r: seq<char>)
    ensures '/' !in r
  {
    path[LastIndex(path, '/') + 1..]
  }

  // ---------------------------------------------------------------------
  // Counting

  /** Entries in `state`, of `site` unless that is `NoSite`. */
  function CountIn(l: seq<FileData>, state: FileState, site: Site): (n: nat)
    ensures n <= |l|
    decreases |l|
  {
    if l == [] then 0
    else
      var d := l[|l| - 1];
      CountIn(l[..|l| - 1], state, site) + (if d.state == state && (site == NoSite || d.site == site) then 1 else 0)
  }

  /** The counting lambda of `GetFileCount`. */
  method CountList(l: seq<FileData>, state: FileState, site: Site) returns (n: nat)
    ensures n == CountIn(l, state, site)
  {
    n := 0;
    var i := 0;
    while i < |l|
      invariant 0 <= i <= |l|
      invariant n == CountIn(l[..i], state, site)
    {
      assert l[..i + 1][..i] == l[..i];
      if l[i].state == state && (site == NoSite || l[i].site == site) {
        n := n + 1;
      }
      i := i + 1;
    }
    assert l[..|l|] == l;
  }

  /** An entry found in `state` is counted. */
  lemma {:induction false} FoundIsCounted(l: seq<FileData>, i: nat, site: Site)
    requires i < |l| && (site == NoSite || l[i].site == site)
    ensures CountIn(l, l[i].state, site) >= 1
    decreases |l|
  {
    if i < |l| - 1 {
      FoundIsCounted(l[..|l| - 1], i, site);
    }
  }

  /** Counting for all sites counts at least as many as for one. */
  lemma {:induction false} CountAllSites(l: seq<FileData>, state: FileState, site: Site)
    ensures CountIn(l, state, site) <= CountIn(l, state, NoSite)
    decreases |l|
  {
    if l != [] {
      CountAllSites(l[..|l| - 1], state, site);
    }
  }

  // ---------------------------------------------------------------------
  // Temporary file names

  /**
   * `TruncateFilename`: when path and name together exceed `max` and the
   * name has a dot, the stem is cut so that path and result are exactly
   * `max` long, the extension from the last dot kept; empty when not even
   * the extension fits. Otherwise the name as it is.
   */
  function TruncateFilename(path: seq<char>, name: seq<char>, max: nat): (r: seq<char>)
    ensures |name| + |path| <= max || '.' !in name ==> r == name
    ensures |name| + |path| > max && '.' in name ==>
              var pos := LastIndex(name, '.');
              (r == [] <==> |path| + (|name| - pos) >= max) &&
              (r != [] ==> |path| + |r| == max && |r| < |name| &&
                           r == name[..|r| - (|name| - pos)] + name[pos..])
  {
    var pos := LastIndex(name, '.');
    if |name| + |path| > max && pos >= 0 then
      var extlen := |name| - pos;
      if |path| + extlen >= max then []
      else name[..max - |path| - extlen] + name[pos..]
    else name
  }

  /**
   * A truncated name keeps its extension: its last dot is where the
   * extension starts, and what follows is the name's extension.
   */
  lemma TruncateKeepsExtension(path: seq<char>, name: seq<char>, max: nat)
    requires |name| + |path| > max && '.' in name && TruncateFilename(path, name, max) != []
    ensures var r := TruncateFilename(path, name, max);
            var pos := LastIndex(name, '.');
            LastIndex(r, '.') == |r| - (|name| - pos) && r[LastIndex(r, '.')..] == name[pos..]
  {
    var r := TruncateFilename(path, name, max);
    var pos := LastIndex(name, '.');
    var ext := name[pos..];
    var stem := name[..|r| - |ext|];
    assert r == stem + ext;
    DotThenRest(stem, name, pos);
    assert r[|stem|..] == ext;
  }

  lemma DotThenRest(stem: seq<char>, name: seq<char>, pos: int)
    requires 0 <= pos < |name| && name[pos] == '.' && '.' !in name[pos + 1..]
    ensures LastIndex(stem + name[pos..], '.') == |stem|
  {
    assert name[pos..] == ['.'] + name[pos + 1..];
    assert stem + name[pos..] == stem + ['.'] + name[pos + 1..];
    LastIndexAt(stem, '.', name[pos + 1..]);
  }

  /**
   * The `n`-th candidate `GetTemporaryFile` tries: the number, after a
   * space, goes before the last dot, or at the end when there is no dot
   * or the dot starts the name.
   */
  function Candidate(dir: seq<char>, name: seq<char>, n: nat): seq<char>
  {
    var pos := LastIndex(name, '.');
    if pos <= 0 then dir + name + " " + Decimal(n)
    else dir + name[..pos] + " " + Decimal(n) + name[pos..]
  }

  /**
   * `FilenameExists`: some remote entry's local file equals the name up to
   * ASCII case, or the file exists and cannot be deleted.
   */
  predicate Taken(remote: seq<FileData>, fs: FileSystem, file: seq<char>)
  {
    (exists i :: 0 <= i < |remote| && ToLowerAscii(remote[i].localFile) == ToLowerAscii(file)) || CopyStays(fs, file)
  }

  /** The loop of `FilenameExists`. */
  method FilenameExists(remote: seq<FileData>, fs: FileSystem, file: seq<char>) returns (taken: bool)
    ensures taken == Taken(remote, fs, file)
  {
    var lower := ToLowerAscii(file);
    var i := 0;
    while i < |remote|
      invariant 0 <= i <= |remote|
      invariant forall j :: 0 <= j < i ==> ToLowerAscii(remote[j].localFile) != lower
    {
      if ToLowerAscii(remote[i].localFile) == lower {
        return true;
      }
      i := i + 1;
    }
    taken := CopyStays(fs, file);
  }

  /**
   * `GetTemporaryFile` outside Windows (no length limit): the name in the
   * directory if that is free, else the first free candidate numbered 2 to
   * 9999, else empty.
   */
  method GetTemporaryFile(dir: seq<char>, name: seq<char>, remote: seq<FileData>, fs: FileSystem)
    returns (file: seq<char>)
    ensures !Taken(remote, fs, dir + name) ==> file == dir + name
    ensures Taken(remote, fs, dir + name) && file == [] ==>
              forall n :: 2 <= n < 10000 ==> Taken(remote, fs, Candidate(dir, name, n))
    ensures Taken(remote, fs, dir + name) && file != [] ==>
              !Taken(remote, fs, file) &&
              exists n :: 2 <= n < 10000 && file == Candidate(dir, name, n) &&
                          forall m :: 2 <= m < n ==> Taken(remote, fs, Candidate(dir, name, m))
  {
    file := dir + name;
    var taken := FilenameExists(remote, fs, file);
    if !taken {
      return file;
    }
    var n := 2;
    while n < 10000
      invariant 2 <= n <= 10000
      invariant forall m :: 2 <= m < n ==> Taken(remote, fs, Candidate(dir, name, m))
    {
      var pos := LastIndex(name, '.');
      if pos <= 0 {
        file := dir + name + " " + Decimal(n);
      } else {
        file := dir + name[..pos] + " " + Decimal(n) + name[pos..];
      }
      assert file == Candidate(dir, name, n);
      taken := FilenameExists(remote, fs, file);
      if !taken {
        return file;
      }
      n := n + 1;
    }
    return [];
  }

  // ---------------------------------------------------------------------
  // Custom associations

  /**
   * The first association line whose first quoted token is the extension
   * (`/` for none) and whose command has a non-empty program. `firstToken`
   * and `command` stand for `UnquoteFirst` and `UnquoteCommand`.
   */
  function FirstAssociation(lines: seq<seq<char>>, ext: seq<char>, firstToken: seq<char> -> Option<seq<char>>,
                            command: seq<char> -> seq<seq<char>>): (r: seq<seq<char>>)
    ensures r == [] || (r[0] != [] && exists i :: 0 <= i < |lines| && firstToken(lines[i]) == Some(ext) &&
                                                   command(lines[i]) == r)
    decreases |lines|
  {
    if lines == [] then []
    else
      var cmd := command(lines[0]);
      if firstToken(lines[0]) == Some(ext) && cmd != [] && cmd[0] != [] then cmd
      else
        var r := FirstAssociation(lines[1..], ext, firstToken, command);
        assert r != [] ==> exists i :: 0 <= i < |lines[1..]| && firstToken(lines[1..][i]) == Some(ext) &&
                                       command(lines[1..][i]) == r;
        r
  }

  /** `GetCustomAssociation` over the lines of the association option. */
  method GetCustomAssociation(file: seq<char>, lines: seq<seq<char>>, firstToken: seq<char> -> Option<seq<char>>,
                              command: seq<char> -> seq<seq<char>>) returns (ret: seq<seq<char>>)
    ensures var ext := FileUtils.GetExtension(file);
            ret == FirstAssociation(lines, if ext == [] then "/" else ext, firstToken, command)
  {
    var ext := FileUtils.GetExtension(file);
    if ext == [] {
      ext := "/";
    }
    ret := [];
    var i := 0;
    while i < |lines|
      invariant 0 <= i <= |lines|
      invariant ret == []
      invariant FirstAssociation(lines, ext, firstToken, command) == FirstAssociation(lines[i..], ext, firstToken, command)
    {
      assert lines[i..][1..] == lines[i + 1..];
      if firstToken(lines[i]) == Some(ext) {
        ret := command(lines[i]);
        if ret != [] && ret[0] != [] {
          return;
        }
        ret := [];
      }
      i := i + 1;
    }
    assert lines[i..] == [];
  }

  // ---------------------------------------------------------------------
  // The handler

  /** `CEditHandler`'s two lists of tracked files. */
  class Handler {
    var localFiles: seq<FileData>
    var remoteFiles: seq<FileData>

    /** No key is tracked twice in either list. */
    predicate Valid()
      reads this
    {
      Unique(localFiles, Local) && Unique(remoteFiles, Remote) && Known(localFiles) && Known(remoteFiles)
    }

    constructor ()
      ensures localFiles == [] && remoteFiles == [] && Valid()
    {
      localFiles, remoteFiles := [], [];
    }

    /** `GetFileState` for a local file. */
    function LocalState(name: seq<char>): FileState
      reads this
    {
      StateOf(localFiles, Probe(Local, name, [], NoSite), Local)
    }

    /** `GetFileState` for a remote file. */
    function RemoteState(name: seq<char>, path: seq<char>, site: Site): FileState
      reads this
    {
      StateOf(remoteFiles, Probe(Remote, name, path, site), Remote)
    }

    /** `GetFileCount`: with `Unknown` every entry of the chosen lists, else those in `state` (and of `site`). */
    function FileCount(t: FileType, state: FileState, site: Site): (n: nat)
      reads this
      ensures t == Local ==> n <= |localFiles|
      ensures t == Remote ==> n <= |remoteFiles|
      ensures n <= |localFiles| + |remoteFiles|
    {
      var l := if t != Remote then (if state == Unknown then |localFiles| else CountIn(localFiles, state, site)) else 0;
      var r := if t != Local then (if state == Unknown then |remoteFiles| else CountIn(remoteFiles, state, site)) else 0;
      l + r
    }

    method GetFileCount(t: FileType, state: FileState, site: Site) returns (n: nat)
      ensures n == FileCount(t, state, site)
    {
      n := 0;
      if state == Unknown {
        if t != Remote {
          n := n + |localFiles|;
        }
        if t != Local {
          n := n + |remoteFiles|;
        }
      } else {
        if t != Remote {
          var c := CountList(localFiles, state, site);
          n := n + c;
        }
        if t != Local {
          var c := CountList(remoteFiles, state, site);
          n := n + c;
        }
      }
    }

    /**
     * `AddFile`: refused when the file is already tracked. A remote file
     * starts as a download. A local file starts in editing; it stays
     * tracked only if the editor starts (`launched`) and local files are
     * tracked (`trackLocal`), and the result is whether the editor started.
     */
    method AddFile(t: FileType, localFile: seq<char>, remoteFile: seq<char>, remotePath: seq<char>, site: Site,
                   launched: bool, trackLocal: bool) returns (ok: bool)
      requires t != NoType && Valid()
      modifies this
      ensures Valid()
      ensures t == Local ==>
                var untracked := old(LocalState(localFile)) == Unknown;
                ok == (untracked && launched) && remoteFiles == old(remoteFiles) &&
                localFiles == if untracked && launched && trackLocal
                              then old(localFiles) + [FileData(Edit, localFile, remoteFile, remotePath, site)]
                              else old(localFiles)
      ensures t == Remote ==>
                ok == (old(RemoteState(remoteFile, remotePath, site)) == Unknown) && localFiles == old(localFiles) &&
                remoteFiles == if ok then old(remoteFiles) + [FileData(Download, localFile, remoteFile, remotePath, site)]
                               else old(remoteFiles)
      ensures ok && t == Local && trackLocal ==> LocalState(localFile) == Edit
      ensures ok && t == Remote ==> RemoteState(remoteFile, remotePath, site) == Download
    {
      var added;
      if t == Local {
        var data := FileData(Edit, localFile, remoteFile, remotePath, site);
        added, localFiles := AddTo(localFiles, Probe(Local, localFile, [], NoSite), data, Local, launched && trackLocal);
        return added && launched;
      }
      var data := FileData(Download, localFile, remoteFile, remotePath, site);
      added, remoteFiles := AddTo(remoteFiles, Probe(Remote, remoteFile, remotePath, site), data, Remote, true);
      return added;
    }

    /** `Remove` for a local file: refused during an upload; an untracked file counts as removed. */
    method RemoveLocal(name: seq<char>) returns (ok: bool)
      requires Valid()
      modifies this
      ensures Valid() && remoteFiles == old(remoteFiles)
      ensures ok <==> !Uploading(old(LocalState(name)))
      ensures localFiles == if ok && IndexOf(old(localFiles), Probe(Local, name, [], NoSite), Local) >= 0
                            then Without(old(localFiles), IndexOf(old(localFiles), Probe(Local, name, [], NoSite), Local))
                            else old(localFiles)
      ensures ok ==> LocalState(name) == Unknown
    {
      var probe := Probe(Local, name, [], NoSite);
      var i := GetFile(localFiles, probe, Local);
      ok := i < 0 || !(localFiles[i].state == Upload || localFiles[i].state == UploadAndRemove);
      assert ok <==> !Uploading(StateOf(localFiles, probe, Local));
      if i >= 0 && ok {
        DropFound(localFiles, probe, Local);
        localFiles := Without(localFiles, i);
      }
    }

    /**
     * `Remove` for a remote file: refused during a transfer; if the local
     * copy cannot be deleted the entry becomes `Removing` and the result
     * is false; an untracked file counts as removed.
     */
    method RemoveRemote(name: seq<char>, path: seq<char>, site: Site, fs: FileSystem) returns (ok: bool)
      requires Valid()
      modifies this
      ensures Valid() && localFiles == old(localFiles)
      ensures var probe := Probe(Remote, name, path, site);
              var i := IndexOf(old(remoteFiles), probe, Remote);
              if i < 0 then ok && remoteFiles == old(remoteFiles)
              else if Transferring(old(remoteFiles)[i].state) then !ok && remoteFiles == old(remoteFiles)
              else if CopyStays(fs, old(remoteFiles)[i].localFile) then !ok && remoteFiles == WithState(old(remoteFiles), i, Removing)
              else ok && remoteFiles == Without(old(remoteFiles), i)
      ensures ok ==> RemoteState(name, path, site) == Unknown
    {
      var probe := Probe(Remote, name, path, site);
      var i := GetFile(remoteFiles, probe, Remote);
      if i < 0 {
        return true;
      }
      var d := remoteFiles[i];
      if d.state == Download || d.state == Upload || d.state == UploadAndRemove {
        return false;
      }
      if FileExists(fs, d.localFile) && d.localFile in fs.stuck {
        UpdateUnique(remoteFiles, i, Some(Removing), Remote);
        remoteFiles := WithState(remoteFiles, i, Removing);
        return false;
      }
      DropFound(remoteFiles, probe, Remote);
      remoteFiles := Without(remoteFiles, i);
      return true;
    }

    /**
     * `RemoveAll(force)`: both lists swept; the result is whether both
     * ended up empty.
     */
    method RemoveAll(force: bool, fs: FileSystem) returns (ok: bool)
      requires Valid()
      modifies this
      ensures Valid()
      ensures remoteFiles == Sweep(old(remoteFiles), AllRemote(force), fs)
      ensures localFiles == Sweep(old(localFiles), AllLocal(force), fs)
      ensures ok <==> localFiles == [] && remoteFiles == []
    {
      SweepUnique(remoteFiles, AllRemote(force), fs, Remote);
      SweepUnique(localFiles, AllLocal(force), fs, Local);
      SweepKnown(remoteFiles, AllRemote(force), fs);
      SweepKnown(localFiles, AllLocal(force), fs);
      remoteFiles := SweepList(remoteFiles, AllRemote(force), fs);
      localFiles := SweepList(localFiles, AllLocal(force), fs);
      ok := localFiles == [] && remoteFiles == [];
    }

    /**
     * `RemoveAll(state, site)`: only `UploadAndRemoveFailed` is supported;
     * those entries (of `site` unless it is `NoSite`) are dropped, or kept
     * as `Removing` when their local copy stays.
     */
    method RemoveAllInState(state: FileState, site: Site, fs: FileSystem) returns (ok: bool)
      requires Valid()
      modifies this
      ensures Valid() && localFiles == old(localFiles)
      ensures ok <==> state == UploadAndRemoveFailed
      ensures remoteFiles == if ok then Sweep(old(remoteFiles), FailedUploads(site), fs) else old(remoteFiles)
    {
      if state != UploadAndRemoveFailed {
        return false;
      }
      SweepUnique(remoteFiles, FailedUploads(site), fs, Remote);
      SweepKnown(remoteFiles, FailedUploads(site), fs);
      remoteFiles := SweepList(remoteFiles, FailedUploads(site), fs);
      return true;
    }

    /** `FinishTransfer` for a local file. */
    method FinishLocal(name: seq<char>, fs: FileSystem)
      requires Valid()
      modifies this
      ensures Valid() && remoteFiles == old(remoteFiles)
      ensures var i := IndexOf(old(localFiles), Probe(Local, name, [], NoSite), Local);
              localFiles == if i < 0 then old(localFiles) else Update(old(localFiles), i, FinishedLocal(old(localFiles)[i], fs))
    {
      var i := GetFile(localFiles, Probe(Local, name, [], NoSite), Local);
      if i < 0 {
        return;
      }
      var next: Option<FileState>;
      match localFiles[i].state {
        case UploadAndRemove =>
          next := None;
        case Upload =>
          next := if FileExists(fs, name) then Some(Edit) else None;
        case _ =>
          return;
      }
      UpdateUnique(localFiles, i, next, Local);
      localFiles := Update(localFiles, i, next);
    }

    /** `FinishTransfer` for a remote file; `launches` says whether the editor starts after a download. */
    method FinishRemote(successful: bool, name: seq<char>, path: seq<char>, site: Site, fs: FileSystem, launches: bool)
      requires Valid()
      modifies this
      ensures Valid() && localFiles == old(localFiles)
      ensures var i := IndexOf(old(remoteFiles), Probe(Remote, name, path, site), Remote);
              remoteFiles == if i < 0 then old(remoteFiles)
                             else Update(old(remoteFiles), i, FinishedRemote(old(remoteFiles)[i], successful, fs, launches))
    {
      var i := GetFile(remoteFiles, Probe(Remote, name, path, site), Remote);
      if i < 0 {
        return;
      }
      var f := remoteFiles[i].localFile;
      var next: Option<FileState>;
      match remoteFiles[i].state {
        case UploadAndRemove =>
          if successful {
            next := if FileExists(fs, f) && f in fs.stuck then Some(Removing) else None;
          } else if !FileExists(fs, f) {
            next := None;
          } else {
            next := Some(UploadAndRemoveFailed);
          }
        case Upload =>
          next := if FileExists(fs, f) then Some(Edit) else None;
        case Download =>
          if FileExists(fs, f) && launches {
            next := Some(Edit);
          } else if FileExists(fs, f) && f in fs.stuck {
            next := Some(Removing);
          } else {
            next := None;
          }
        case _ =>
          return;
      }
      UpdateUnique(remoteFiles, i, next, Remote);
      remoteFiles := Update(remoteFiles, i, next);
    }

    /**
     * `UploadFile` for a local file: refused unless it is being edited or
     * its upload-and-remove failed.
     */
    method UploadLocal(name: seq<char>, unedit: bool, fs: FileSystem) returns (ok: bool)
      requires Valid()
      modifies this
      ensures Valid() && remoteFiles == old(remoteFiles)
      ensures var s := old(LocalState(name));
              var i := IndexOf(old(localFiles), Probe(Local, name, [], NoSite), Local);
              if s != Edit && s != UploadAndRemoveFailed then !ok && localFiles == old(localFiles)
              else var next := UploadNext(old(localFiles)[i], unedit, fs);
                   ok == next.Some? && localFiles == Update(old(localFiles), i, next)
    {
      var i := GetFile(localFiles, Probe(Local, name, [], NoSite), Local);
      ok, localFiles := UploadEntry(localFiles, i, unedit, fs, Local);
    }

    /** `UploadFile` for a remote file. */
    method UploadRemote(name: seq<char>, path: seq<char>, site: Site, unedit: bool, fs: FileSystem) returns (ok: bool)
      requires Valid()
      modifies this
      ensures Valid() && localFiles == old(localFiles)
      ensures var s := old(RemoteState(name, path, site));
              var i := IndexOf(old(remoteFiles), Probe(Remote, name, path, site), Remote);
              if s != Edit && s != UploadAndRemoveFailed then !ok && remoteFiles == old(remoteFiles)
              else var next := UploadNext(old(remoteFiles)[i], unedit, fs);
                   ok == next.Some? && remoteFiles == Update(old(remoteFiles), i, next)
    {
      var i := GetFile(remoteFiles, Probe(Remote, name, path, site), Remote);
      ok, remoteFiles := UploadEntry(remoteFiles, i, unedit, fs, Remote);
    }
  }

  /**
   * The list part of `AddFile`: refused when the key has a state; else
   * the entry is appended, found again by its key and, unless `keep`,
   * erased again.
   */
  method AddTo(l: seq<FileData>, probe: FileData, data: FileData, t: FileType, keep: bool)
    returns (added: bool, l': seq<FileData>)
    requires Unique(l, t) && Known(l) && data.state != Unknown && SameKey(data, probe, t)
    ensures Unique(l', t) && Known(l')
    ensures added == (StateOf(l, probe, t) == Unknown)
    ensures l' == if added && keep then l + [data] else l
    ensures added && keep ==> StateOf(l', probe, t) == data.state
  {
    var found := GetFile(l, probe, t);
    var state := if found < 0 then Unknown else l[found].state;
    if state != Unknown {
      return false, l;
    }
    IndexOfAppended(l, data, probe, t);
    l' := l + [data];
    var it := GetFile(l', probe, t);
    if !keep {
      l' := Without(l', it);
      assert l' == l;
    }
    return true, l';
  }

  /**
   * `UploadFile` on the entry at `i` (-1 for none): the state moves to an
   * upload, then the entry goes if its local file is missing or nameless.
   */
  method UploadEntry(l: seq<FileData>, i: int, unedit: bool, fs: FileSystem, ghost t: FileType)
    returns (ok: bool, l': seq<FileData>)
    requires -1 <= i < |l| && Unique(l, t) && Known(l)
    ensures Unique(l', t) && Known(l')
    ensures i < 0 || (l[i].state != Edit && l[i].state != UploadAndRemoveFailed) ==> !ok && l' == l
    ensures i >= 0 && (l[i].state == Edit || l[i].state == UploadAndRemoveFailed) ==>
              var next := UploadNext(l[i], unedit, fs);
              ok == next.Some? && l' == Update(l, i, next)
  {
    if i < 0 {
      return false, l;
    }
    if l[i].state != Edit && l[i].state != UploadAndRemoveFailed {
      return false, l;
    }
    var d := l[i];
    var next := Some(if unedit then UploadAndRemove else Upload);
    if !FileExists(fs, d.localFile) {
      next := None;
    } else if NamePart(d.localFile) == [] {
      next := None;
    }
    UpdateUnique(l, i, next, t);
    return next.Some?, Update(l, i, next);
  }
}
