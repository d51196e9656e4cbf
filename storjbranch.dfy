/**
 * The fzstorj helper of the storj development branch: the same line
 * protocol as the trunk helper (`getLine`, a command split at its first
 * space), but its own argument parsing for `host`, `get`, `put`, `rm` and
 * `list`, replies that always carry text, and a storage environment that is
 * created once, from the settings in force at the first request that needs
 * it. The storage library itself (`storj_*`, libuv) is not part of this
 * model: a request appears as the action it asks of the library.
 */
module StorjBranch {
  import opened Common
  import opened Text
  import T = StorjTrunk

  // ---------------------------------------------------------------------
  // Reply framing

  /** A reply: its event and its text. */
  datatype Reply = Reply(event: nat, text: seq<char>)

  /** `fzprintf`: the event character, the text and a line feed, always. */
  function Frame(r: Reply): (out: seq<char>)
    ensures |out| == |r.text| + 2 && out[0] == T.EventChar(r.event) && out[|out| - 1] == '\n'
    ensures out[1..|out| - 1] == r.text
  {
    [T.EventChar(r.event)] + r.text + "\n"
  }

  /** Replies written one after the other. */
  function Frames(rs: seq<Reply>): (out: seq<char>)
    ensures |out| >= 2 * |rs|
  {
    if rs == [] then [] else Frame(rs[0]) + Frames(rs[1..])
  }

  /** A branch reply as a trunk reply with text. */
  function AsTrunk(rs: seq<Reply>): (ts: seq<T.Reply>)
    ensures |ts| == |rs|
    ensures forall i :: 0 <= i < |rs| ==> ts[i] == T.Reply(rs[i].event, Some(rs[i].text))
  {
    if rs == [] then [] else [T.Reply(rs[0].event, Some(rs[0].text))] + AsTrunk(rs[1..])
  }

  /** The branch writes every reply as the trunk writes a reply with text. */
  lemma {:induction false} FramesAsTrunk(rs: seq<Reply>)
    ensures Frames(rs) == T.Frames(AsTrunk(rs))
    decreases |rs|
  {
    if rs != [] {
      FramesAsTrunk(rs[1..]);
      assert AsTrunk(rs)[1..] == AsTrunk(rs[1..]);
    }
  }

  /**
   * A reader that expects text after every event it knows, given replies
   * without a line feed in their text, reads back the replies written.
   */
  lemma FramesReadBack(rs: seq<Reply>, events: set<nat>)
    requires forall i :: 0 <= i < |rs| ==> rs[i].event < 208 && rs[i].event in events && '\n' !in rs[i].text
    ensures T.ReadReplies(Frames(rs), events) == AsTrunk(rs)
  {
    FramesAsTrunk(rs);
    T.FramesReadBack(AsTrunk(rs), events);
  }

  // ---------------------------------------------------------------------
  // Settings and the storage environment

  /** What `host`, `user` and `pass` have set: the bridge host and port, the user and the password. */
  datatype Config = Config(host: seq<char>, port: nat, user: seq<char>, pass: seq<char>)

  /** The settings, and the environment once `init_env` has created it from them. */
  datatype State = State(config: Config, env: Option<Config>)

  /** The settings `main` starts with: port 443, nothing else, no environment. */
  function Initial(): (s: State)
    ensures s.config.port == 443 && s.env == None
  {
    State(Config([], 443, [], []), None)
  }

  /** `init_env`: the environment is created from the current settings the first time only. */
  function InitEnv(s: State): (r: State)
    ensures r.config == s.config && r.env.Some?
    ensures s.env.Some? ==> r == s
    ensures s.env.None? ==> r.env == Some(s.config)
  {
    if s.env.Some? then s else s.(env := Some(s.config))
  }

  // ---------------------------------------------------------------------
  // host

  /** A host and a port. */
  datatype Endpoint = Endpoint(host: seq<char>, port: nat)

  /**
   * `fz::to_integral<unsigned short>`: decimal digits whose value fits in
   * 16 bits, else the error value 0.
   */
  function PortValue(s: seq<char>): (p: nat)
    ensures p < 65536
    ensures s != [] && AllDigits(s) && DigitsValue(s) < 65536 ==> p == DigitsValue(s)
  {
    if s != [] && AllDigits(s) && DigitsValue(s) < 65536 then DigitsValue(s) else 0
  }

  /**
   * `host` AS WRITTEN. With a `:` in the argument, both slices use `pos`,
   * the index of the first space of the command line (4, after `host`),
   * rather than the index of the `:`; `substr(pos + 1)` throws
   * `std::out_of_range` (None) when the argument is shorter than that.
   */
  function HostAsWritten(arg: seq<char>, pos: nat, port: nat): (r: Option<Endpoint>)
    ensures ':' !in arg ==> r == Some(Endpoint(arg, port))
    ensures ':' in arg && pos + 1 <= |arg| ==> r.Some? && r.value.host == arg[..pos]
    ensures ':' in arg && pos + 1 > |arg| ==> r == None
  {
    var sep := FirstIndex(arg, ':');
    if sep < 0 then Some(Endpoint(arg, port))
    else if pos + 1 > |arg| then None
    else Some(Endpoint(arg[..pos], PortValue(arg[pos + 1..])))
  }

  /** `host` as evidently intended: split at the first `:` into host and port. */
  function HostPort(arg: seq<char>, port: nat): (r: Endpoint)
    ensures ':' !in arg ==> r == Endpoint(arg, port)
    ensures ':' in arg ==> ':' !in r.host && r.port < 65536 && |r.host| < |arg| && arg[..|r.host| + 1] == r.host + ":"
  {
    var sep := FirstIndex(arg, ':');
    if sep < 0 then Endpoint(arg, port)
    else
      assert arg[..sep + 1] == arg[..sep] + ":";
      Endpoint(arg[..sep], PortValue(arg[sep + 1..]))
  }

  /** `host:port` with a 16-bit port, written in decimal, splits back into the host and that port. */
  lemma HostPortJoin(h: seq<char>, p: nat, port: nat)
    requires ':' !in h && p < 65536
    ensures HostPort(h + ":" + Decimal(p), port) == Endpoint(h, p)
  {
    var d := Decimal(p);
    var arg := h + ":" + d;
    FirstIndexAt(h, ':', d);
    assert arg[..|h|] == h && arg[|h| + 1..] == d;
    DecimalRoundTrip(p);
  }

  /**
   * The source's `host` takes a host of any length other than four apart
   * from its port wrongly: it throws, or keeps the first four characters.
   */
  lemma HostSliceWrong(h: seq<char>, p: nat, port: nat)
    requires ':' !in h && |h| != 4 && p < 65536
    ensures HostAsWritten(h + ":" + Decimal(p), 4, port) != Some(HostPort(h + ":" + Decimal(p), port))
  {
    HostPortJoin(h, p, port);
    assert ':' in h + ":" + Decimal(p) by {
      assert (h + ":" + Decimal(p))[|h|] == ':';
    }
  }

  // ---------------------------------------------------------------------
  // get

  /** `fz::replaced_substrings(s, "\"\"", "\"")`: each doubled quote, left to right, becomes one. */
  function Undouble(s: seq<char>): (r: seq<char>)
    ensures |r| <= |s|
    decreases |s|
  {
    if |s| >= 2 && s[0] == '"' && s[1] == '"' then "\"" + Undouble(s[2..])
    else if s == [] then []
    else [s[0]] + Undouble(s[1..])
  }

  /** Undoubling undoes the doubling of quotes. */
  lemma {:induction false} UndoubleDoubled(a: seq<char>)
    ensures Undouble(T.Doubled(a)) == a
    decreases |a|
  {
    if a != [] {
      var d := T.Doubled(a[1..]);
      UndoubleDoubled(a[1..]);
      if a[0] == '"' {
        assert T.Doubled(a) == "\"\"" + d;
        assert (T.Doubled(a))[2..] == d;
      } else {
        assert T.Doubled(a) == [a[0]] + d;
        assert (T.Doubled(a))[1..] == d;
      }
      assert a == [a[0]] + a[1..];
    }
  }

  /** A file name of at least three characters in quotes loses them and its doubled quotes. */
  function UnquoteFile(file: seq<char>): (r: seq<char>)
    ensures !(|file| >= 3 && file[0] == '"' && file[|file| - 1] == '"') ==> r == file
    ensures |r| <= |file|
  {
    if |file| >= 3 && file[0] == '"' && file[|file| - 1] == '"' then Undouble(file[1..|file| - 1]) else file
  }

  /** A non-empty name, quoted, is read back as itself. */
  lemma UnquoteQuoted(a: seq<char>)
    requires a != []
    ensures UnquoteFile(T.Quote(a)) == a
  {
    var q := T.Quote(a);
    assert q[1..|q| - 1] == T.Doubled(a);
    UndoubleDoubled(a);
  }

  /** What a command line asks of the helper. */
  datatype Action =
    | Done
    | NoBucketGiven
    | BadArguments
    | NoSuchCommand(command: seq<char>)
    | ListBuckets
    | ListFiles(bucket: seq<char>)
    | Download(bucket: seq<char>, id: seq<char>, file: seq<char>)
    | Upload(bucket: seq<char>, file: seq<char>, remoteName: seq<char>)
    | Delete(bucket: seq<char>, id: seq<char>)

  /**
   * `get <bucket> <id> <file>` AS WRITTEN: the missing-space check after
   * the id tests `pos` again instead of `pos2`, so without a second space
   * the id runs to the end (`substr` clamps its huge count) and the file is
   * the whole argument (`npos + 1` wraps to 0).
   */
  function GetAsWritten(arg: seq<char>): (a: Action)
    ensures ' ' !in arg <==> a == BadArguments
  {
    var pos := FirstIndex(arg, ' ');
    if pos < 0 then BadArguments
    else
      var pos2 := T.FindFrom(arg, ' ', pos + 1);
      var id := if pos2 < 0 then arg[pos + 1..] else arg[pos + 1..pos2];
      var file := if pos2 < 0 then arg else arg[pos2 + 1..];
      Download(arg[..pos], id, UnquoteFile(file))
  }

  /**
   * `get` as evidently intended: bucket and id end at a space each, the
   * file is the rest of the line, and a missing space is "Bad arguments".
   */
  function Get(arg: seq<char>): (a: Action)
    ensures a.BadArguments? || a.Download?
    ensures a.Download? ==> ' ' !in a.bucket && ' ' !in a.id
  {
    var pos := FirstIndex(arg, ' ');
    if pos < 0 then BadArguments
    else
      var pos2 := T.FindFrom(arg, ' ', pos + 1);
      if pos2 < 0 then BadArguments
      else
        T.FindFromSkips(arg, ' ', pos + 1);
        var id := arg[pos + 1..pos2];
        assert ' ' !in id by {
          forall k | 0 <= k < |id|
            ensures id[k] != ' '
          {
            assert id[k] == arg[pos + 1 + k];
          }
        }
        Download(arg[..pos], id, UnquoteFile(arg[pos2 + 1..]))
  }

  /** Bucket, id and a quoted file, as the engine would write them, are a download of exactly those. */
  lemma GetRoundTrip(b: seq<char>, i: seq<char>, f: seq<char>)
    requires ' ' !in b && ' ' !in i && f != []
    ensures Get(b + " " + i + " " + T.Quote(f)) == Download(b, i, f)
  {
    GetSplit(b, i, T.Quote(f));
    UnquoteQuoted(f);
  }

  /** A bucket and an id without spaces, each followed by a space, leave the rest as the file. */
  lemma GetSplit(b: seq<char>, i: seq<char>, file: seq<char>)
    requires ' ' !in b && ' ' !in i
    ensures Get(b + " " + i + " " + file) == Download(b, i, UnquoteFile(file))
  {
    var arg := b + " " + i + " " + file;
    FirstIndexAt(b, ' ', i + " " + file);
    assert arg == b + [' '] + (i + " " + file);
    var pos2 := |b| + 1 + |i|;
    assert arg[pos2] == ' ';
    forall k | |b| + 1 <= k < pos2
      ensures arg[k] != ' '
    {
      assert arg[k] == i[k - |b| - 1];
    }
    FindFromAt(arg, ' ', |b| + 1, pos2);
    assert arg[..|b|] == b && arg[|b| + 1..pos2] == i && arg[pos2 + 1..] == file;
  }

  /** `find` from `from` lands on `at` when `at` holds `c` and nothing before it does. */
  lemma {:induction false} FindFromAt(s: seq<char>, c: char, from: nat, at: nat)
    requires from <= at < |s| && s[at] == c
    requires forall k :: from <= k < at ==> s[k] != c
    ensures T.FindFrom(s, c, from) == at
    decreases at - from
  {
    if from < at {
      FindFromAt(s, c, from + 1, at);
    }
  }

  /**
   * Without a file the source downloads into a file named after the whole
   * argument; the corrected `get` refuses the line.
   */
  lemma GetWithoutFile(b: seq<char>, i: seq<char>)
    requires ' ' !in b && ' ' !in i
    ensures GetAsWritten(b + " " + i) == Download(b, i, UnquoteFile(b + " " + i))
    ensures Get(b + " " + i) == BadArguments
  {
    var arg := b + " " + i;
    FirstIndexAt(b, ' ', i);
    assert arg[..|b|] == b && arg[|b| + 1..] == i;
    T.FindFromNone(arg, ' ', |b| + 1) by {
      forall k | |b| + 1 <= k < |arg|
        ensures arg[k] != ' '
      {
        assert arg[k] == i[k - |b| - 1];
      }
    }
  }

  // ---------------------------------------------------------------------
  // put

  /**
   * A double-quoted field at the start of `s`, `""` standing for `"`, whose
   * closing quote must be followed by `term`: a space, or the end of the
   * line (NUL).
   */
  function QuotedField(s: seq<char>, term: char): (r: T.Scan)
    requires term == ' ' || term == 0 as char
    ensures r.Closed? ==> 1 <= r.close < |s| && s[0] == '"' && s[r.close] == '"' && T.At(s, r.close + 1) == term
  {
    if T.At(s, 0) != '"' then T.Malformed
    else
      match T.ScanQuoted(s, 1, [])
      case Malformed => T.Malformed
      case Closed(v, close) => if T.At(s, close + 1) == term then T.Closed(v, close) else T.Malformed
  }

  /** The quoted-field loop of `put`: the field's text and the index of its closing quote. */
  method ReadField(s: seq<char>, term: char) returns (ok: bool, value: seq<char>, close: nat)
    requires term == ' ' || term == 0 as char
    ensures ok <==> QuotedField(s, term).Closed?
    ensures ok ==> QuotedField(s, term) == T.Closed(value, close)
  {
    if T.At(s, 0) != '"' {
      return false, [], 0;
    }
    var pos := 1;
    var pos2 := T.FindFrom(s, '"', pos);
    value := [];
    while pos2 >= 0 && T.At(s, pos2 + 1) == '"'
      invariant 1 <= pos <= |s|
      invariant pos2 == T.FindFrom(s, '"', pos)
      invariant T.ScanQuoted(s, pos, value) == T.ScanQuoted(s, 1, [])
      decreases |s| - pos
    {
      value := value + s[pos..pos2 + 1];
      pos := pos2 + 2;
      pos2 := T.FindFrom(s, '"', pos);
    }
    if pos2 < 0 || T.At(s, pos2 + 1) != term {
      assert QuotedField(s, term).Malformed?;
      return false, [], 0;
    }
    assert T.ScanQuoted(s, 1, []) == T.Closed(value + s[pos..pos2], pos2);
    value := value + s[pos..pos2];
    close := pos2;
    ok := true;
  }

  /**
   * `put <bucket> "<file>" "<remote name>"`: the bucket runs to the first
   * space; the file must be followed by one space and the remote name must
   * end the line, else "Bad arguments".
   */
  function Put(arg: seq<char>): (a: Action)
    ensures a.BadArguments? || a.Upload?
    ensures a.Upload? ==> ' ' !in a.bucket
    ensures ' ' !in arg ==> a == BadArguments
  {
    var pos := FirstIndex(arg, ' ');
    if pos < 0 then BadArguments else Fields(arg[..pos], arg[pos + 1..])
  }

  /** The two quoted fields of `put` after its bucket. */
  function Fields(bucket: seq<char>, rest: seq<char>): (a: Action)
    ensures a.BadArguments? || (a.Upload? && a.bucket == bucket)
  {
    match QuotedField(rest, ' ')
    case Malformed => BadArguments
    case Closed(file, close) =>
      match QuotedField(rest[close + 2..], 0 as char)
      case Malformed => BadArguments
      case Closed(name, _) => Upload(bucket, file, name)
  }

  /** A bucket without spaces is followed by the fields. */
  lemma PutSplit(b: seq<char>, rest: seq<char>)
    requires ' ' !in b
    ensures Put(b + " " + rest) == Fields(b, rest)
  {
    var arg := b + " " + rest;
    FirstIndexAt(b, ' ', rest);
    assert arg[..|b|] == b && arg[|b| + 1..] == rest;
  }

  /** `put`'s argument parsing, slicing the argument step by step. */
  method PutArguments(arg: seq<char>) returns (a: Action)
    ensures a == Put(arg)
  {
    var pos := FirstIndex(arg, ' ');
    if pos < 0 {
      return BadArguments;
    }
    a := ReadFields(arg[..pos], arg[pos + 1..]);
  }

  /** The two quoted fields after the bucket, the argument cut past the first. */
  method ReadFields(bucket: seq<char>, rest: seq<char>) returns (a: Action)
    ensures a == Fields(bucket, rest)
  {
    var ok, file, close := ReadField(rest, ' ');
    if !ok {
      return BadArguments;
    }
    var ok2, name, _ := ReadField(rest[close + 2..], 0 as char);
    if !ok2 {
      return BadArguments;
    }
    a := Upload(bucket, file, name);
  }

  /** A quoted field is read back, whether a space or the end of the line follows it. */
  lemma FieldQuoted(a: seq<char>, post: seq<char>)
    requires post == [] || post[0] == ' '
    ensures QuotedField(T.Quote(a) + post, if post == [] then 0 as char else ' ') ==
            T.Closed(a, |T.Doubled(a)| + 1)
    ensures (T.Quote(a) + post)[|T.Doubled(a)| + 2..] == post
  {
    var line := T.Quote(a) + post;
    T.QuotedPrefix(a, post);
    T.ScanDoubled(line, 1, a, []);
    assert [] + a == a;
    assert line[|T.Doubled(a)| + 1] == '"';
    if post != [] {
      assert T.At(line, |T.Doubled(a)| + 2) == post[0];
    }
  }

  /** A bucket and two quoted names, as the engine would write them, are an upload of exactly those. */
  lemma PutRoundTrip(b: seq<char>, file: seq<char>, name: seq<char>)
    requires ' ' !in b
    ensures Put(b + " " + T.Quote(file) + " " + T.Quote(name)) == Upload(b, file, name)
  {
    var rest := T.Quote(file) + (" " + T.Quote(name));
    assert b + " " + T.Quote(file) + " " + T.Quote(name) == b + " " + rest;
    PutSplit(b, rest);
    FieldsQuoted(b, file, name);
  }

  /** Two quoted fields, a space between them, are the file and the remote name. */
  lemma FieldsQuoted(b: seq<char>, file: seq<char>, name: seq<char>)
    ensures Fields(b, T.Quote(file) + (" " + T.Quote(name))) == Upload(b, file, name)
  {
    var rest := T.Quote(file) + (" " + T.Quote(name));
    FieldQuoted(file, " " + T.Quote(name));
    var c := |T.Doubled(file)| + 1;
    assert rest[c + 2..] == T.Quote(name);
    FieldQuoted(name, []);
    assert T.Quote(name) + [] == T.Quote(name);
    FieldsAccepted(b, rest, file, c, name, |T.Doubled(name)| + 1);
  }

  /** A first field closed by a space and a second one that ends the line are an upload. */
  lemma FieldsAccepted(b: seq<char>, rest: seq<char>, file: seq<char>, c: nat, name: seq<char>, c2: nat)
    requires QuotedField(rest, ' ') == T.Closed(file, c) && QuotedField(rest[c + 2..], 0 as char) == T.Closed(name, c2)
    ensures Fields(b, rest) == Upload(b, file, name)
  {
  }

  /** Anything after the remote name is refused. */
  lemma PutRefusesTrailing(b: seq<char>, file: seq<char>, name: seq<char>, more: seq<char>)
    requires ' ' !in b
    ensures Put(b + " " + T.Quote(file) + " " + T.Quote(name) + " " + more) == BadArguments
  {
    var rest := T.Quote(file) + (" " + (T.Quote(name) + (" " + more)));
    assert b + " " + T.Quote(file) + " " + T.Quote(name) + " " + more == b + " " + rest;
    PutSplit(b, rest);
    FieldsTrailing(b, file, name, more);
  }

  /** A second field followed by a space is not the end of the line. */
  lemma FieldsTrailing(b: seq<char>, file: seq<char>, name: seq<char>, more: seq<char>)
    ensures Fields(b, T.Quote(file) + (" " + (T.Quote(name) + (" " + more)))) == BadArguments
  {
    var last := T.Quote(name) + (" " + more);
    var rest := T.Quote(file) + (" " + last);
    FieldQuoted(file, " " + last);
    var c := |T.Doubled(file)| + 1;
    assert rest[c + 2..] == last;
    FieldQuoted(name, " " + more);
    FieldEndsAtSpace(last, name, |T.Doubled(name)| + 1);
    FieldsRefused(b, rest, file, c);
  }

  /** A field closed by a space is not closed by the end of the line. */
  lemma FieldEndsAtSpace(s: seq<char>, v: seq<char>, c: nat)
    requires QuotedField(s, ' ') == T.Closed(v, c)
    ensures QuotedField(s, 0 as char) == T.Malformed
  {
  }

  /** A first field whose second one does not end the line is refused. */
  lemma FieldsRefused(b: seq<char>, rest: seq<char>, file: seq<char>, c: nat)
    requires QuotedField(rest, ' ') == T.Closed(file, c) && QuotedField(rest[c + 2..], 0 as char) == T.Malformed
    ensures Fields(b, rest) == BadArguments
  {
  }

  // ---------------------------------------------------------------------
  // rm

  /** `fz::strtok(s, ' ')`: the non-empty runs of characters between spaces. */
  function Tokens(s: seq<char>): (r: seq<seq<char>>)
    ensures forall k :: 0 <= k < |r| ==> r[k] != [] && ' ' !in r[k]
    decreases |s|
  {
    if s == [] then []
    else if s[0] == ' ' then Tokens(s[1..])
    else
      var e := FirstIndex(s, ' ');
      if e < 0 then [s] else [s[..e]] + Tokens(s[e..])
  }

  /** `rm <bucket> <id>`: exactly two tokens, else "Bad arguments". */
  function Remove(arg: seq<char>): (a: Action)
    ensures a.BadArguments? || a.Delete?
    ensures a.Delete? ==> a.bucket != [] && ' ' !in a.bucket && a.id != [] && ' ' !in a.id
    ensures a.Delete? <==> |Tokens(arg)| == 2
  {
    var args := Tokens(arg);
    if |args| != 2 then BadArguments else Delete(args[0], args[1])
  }

  /** Spaces before the first token are skipped. */
  lemma TokensSpace(rest: seq<char>)
    ensures Tokens(" " + rest) == Tokens(rest)
  {
    assert (" " + rest)[1..] == rest;
  }

  /** A word followed by a space or the end of the line is the next token. */
  lemma TokensWord(w: seq<char>, rest: seq<char>)
    requires w != [] && ' ' !in w && (rest == [] || rest[0] == ' ')
    ensures Tokens(w + rest) == [w] + Tokens(rest)
  {
    var s := w + rest;
    assert s[0] == w[0];
    if rest == [] {
      assert s == w;
    } else {
      FirstIndexAt(w, ' ', rest[1..]);
      assert s == w + [' '] + rest[1..];
      assert s[..|w|] == w && s[|w|..] == rest;
    }
  }

  /** Two words separated by spaces, with spaces around them too, are a deletion of those two. */
  lemma RemoveWords(b: seq<char>, i: seq<char>)
    requires b != [] && ' ' !in b && i != [] && ' ' !in i
    ensures Remove(" " + b + "  " + i + " ") == Delete(b, i)
  {
    assert " " + b + "  " + i + " " == " " + (b + (" " + (" " + (i + " "))));
    TokensSpace(b + (" " + (" " + (i + " "))));
    TokensWord(b, " " + (" " + (i + " ")));
    TokensSpace(" " + (i + " "));
    TokensSpace(i + " ");
    TokensWord(i, " ");
    TokensSpace([]);
    assert " " + [] == " ";
  }

  // ---------------------------------------------------------------------
  // Dispatch

  /** The verbs the helper knows, and everything else. */
  datatype Command = HostCmd | UserCmd | PassCmd | ListBucketsCmd | ListCmd | GetCmd | PutCmd | RmCmd | UnknownCmd

  /** The command a verb names. */
  function CommandOf(verb: seq<char>): (c: Command)
    ensures c == UnknownCmd <==> verb !in ["host", "user", "pass", "list-buckets", "list", "get", "put", "rm"]
    ensures verb == "host" ==> c == HostCmd
  {
    if verb == "host" then HostCmd
    else if verb == "user" then UserCmd
    else if verb == "pass" then PassCmd
    else if verb == "list-buckets" then ListBucketsCmd
    else if verb == "list" then ListCmd
    else if verb == "get" then GetCmd
    else if verb == "put" then PutCmd
    else if verb == "rm" then RmCmd
    else UnknownCmd
  }

  /** The outcome of one command line: the state after it and its action. */
  datatype Step = Step(state: State, action: Action)

  /** A request that reaches the storage library creates the environment first. */
  function Request(s: State, a: Action): (r: Step)
    ensures r.action == a
    ensures a.BadArguments? ==> r.state == s
    ensures !a.BadArguments? ==> r.state == InitEnv(s)
  {
    if a.BadArguments? then Step(s, a) else Step(InitEnv(s), a)
  }

  /**
   * What a verb does with its argument. `host`, `user` and `pass` change
   * the settings and are answered "Done"; `list-buckets` and `list` create
   * the environment before anything else, the others only once their
   * arguments are good; an unknown verb is answered "No such command".
   */
  function Dispatch(s: State, verb: seq<char>, arg: seq<char>): (r: Step)
    ensures CommandOf(verb) == UnknownCmd ==> r == Step(s, NoSuchCommand(verb))
    ensures CommandOf(verb) == ListCmd && arg == [] ==> r.action == NoBucketGiven && r.state.env.Some?
    ensures CommandOf(verb) == ListCmd && arg != [] ==> r.action == ListFiles(arg) && r.state.env.Some?
    ensures CommandOf(verb) == ListBucketsCmd ==> r.action == ListBuckets && r.state.env.Some?
    ensures CommandOf(verb) == GetCmd ==> r.action == Get(arg)
    ensures CommandOf(verb) == PutCmd ==> r.action == Put(arg)
    ensures CommandOf(verb) == RmCmd ==> r.action == Remove(arg)
    ensures r.state.env == s.env || (s.env == None && r.state.env == Some(s.config))
    ensures r.state.config != s.config ==> r.action == Done
  {
    match CommandOf(verb)
    case HostCmd =>
      var e := HostPort(arg, s.config.port);
      Step(s.(config := s.config.(host := e.host, port := e.port)), Done)
    case UserCmd => Step(s.(config := s.config.(user := arg)), Done)
    case PassCmd => Step(s.(config := s.config.(pass := arg)), Done)
    case ListBucketsCmd => Step(InitEnv(s), ListBuckets)
    case ListCmd => Step(InitEnv(s), if arg == [] then NoBucketGiven else ListFiles(arg))
    case GetCmd => Request(s, Get(arg))
    case PutCmd => Request(s, Put(arg))
    case RmCmd => Request(s, Remove(arg))
    case UnknownCmd => Step(s, NoSuchCommand(verb))
  }

  /** One turn of the command loop: the line split at its first space, then dispatched. */
  function Handle(s: State, command: seq<char>): (r: Step)
    ensures r.state.env == s.env || (s.env == None && r.state.env == Some(s.config))
  {
    Dispatch(s, T.Verb(command), T.Argument(command))
  }

  /** The line `list` alone creates the environment and is answered "No bucket given". */
  lemma ListWithoutBucket(s: State)
    ensures Handle(s, "list") == Step(InitEnv(s), NoBucketGiven)
  {
    assert ' ' !in "list";
    assert T.Verb("list") == "list";
  }

  /** A verb and its argument reach that verb with that argument. */
  lemma CommandSplit(s: State, verb: seq<char>, arg: seq<char>)
    requires ' ' !in verb
    ensures Handle(s, verb + " " + arg) == Dispatch(s, verb, arg)
  {
    FirstIndexAt(verb, ' ', arg);
    var c := verb + " " + arg;
    assert c[..|verb|] == verb && c[|verb| + 1..] == arg;
  }

  // ---------------------------------------------------------------------
  // The command loop

  /** How the helper ends: its exit code, the actions asked for, the final state. */
  datatype SessionEnd = SessionEnd(exitCode: int, actions: seq<Action>, state: State)

  /**
   * The command loop of `main` from `input`: a failed `getLine` ends it with
   * exit code 1, an empty line with 0; every other line is handled in turn.
   */
  function Serve(input: seq<byte>, s: State, actions: seq<Action>): (r: SessionEnd)
    ensures r.exitCode == 0 || r.exitCode == 1
    ensures |actions| <= |r.actions| && r.actions[..|actions|] == actions
    ensures s.env.Some? ==> r.state.env == s.env
    decreases |input|
  {
    var l := T.ReadLine(input, []);
    if !l.ok then SessionEnd(1, actions, s)
    else if l.line == [] then SessionEnd(0, actions, s)
    else
      var h := Handle(s, l.line);
      var r := Serve(l.rest, h.state, actions + [h.action]);
      assert (actions + [h.action])[..|actions|] == actions;
      r
  }

  /** `main`'s command loop, reading the whole input line by line. */
  method Run(input: seq<byte>) returns (exitCode: int, actions: seq<Action>, state: State)
    ensures SessionEnd(exitCode, actions, state) == Serve(input, Initial(), [])
  {
    state := Initial();
    actions := [];
    var rest := input;
    while true
      invariant Serve(rest, state, actions) == Serve(input, Initial(), [])
      decreases |rest|
    {
      var ok, command, rest' := T.GetLine(rest);
      if !ok {
        exitCode := 1;
        return;
      }
      if command == [] {
        exitCode := 0;
        return;
      }
      var h := Handle(state, command);
      state := h.state;
      actions := actions + [h.action];
      rest := rest';
    }
  }
}
